/** `sort_wind_directions`: Python's stable `sorted` keyed by the position
    of each name in the canonical compass order. Looking up a name that is
    not in the order raises, so the sort either fails or returns a
    permutation of its input in compass order. */
module Ordering {
  import opened Wrappers
  import opened Compass
  import opened Sequences

  /** Python's `list.index`: the position of the first occurrence of `d`.
      For an absent name it returns `|order|`; the callers below check
      membership first, as the source's `ValueError` does. */
  function Rank<T(==)>(order: seq<T>, d: T): (i: nat)
    ensures i <= |order|
    ensures i < |order| <==> d in order
    ensures i < |order| ==> order[i] == d && d !in order[..i]
  {
    if order == [] then 0
    else if order[0] == d then 0
    else
      assert order[1..][..Rank(order[1..], d)] == order[1..1 + Rank(order[1..], d)];
      1 + Rank(order[1..], d)
  }

  /** The sort key of the rose's `sort_wind_directions`. */
  function CompassKey(rose: Rose): string -> nat {
    d => Rank(Order(rose), d)
  }

  predicate SortedBy<T>(s: seq<T>, key: T -> nat) {
    forall i, j :: 0 <= i < j < |s| ==> key(s[i]) <= key(s[j])
  }

  /** Places `x` before the first element whose key is at least its own,
      so that `x` precedes the equal-keyed elements that follow it in the
      input: the step that makes `Sort` stable. */
  function Insert<T(==)>(x: T, s: seq<T>, key: T -> nat): (r: seq<T>)
    ensures multiset(r) == multiset(s) + multiset{x}
  {
    if s == [] || key(x) <= key(s[0]) then [x] + s
    else
      assert s == [s[0]] + s[1..];
      [s[0]] + Insert(x, s[1..], key)
  }

  lemma {:induction false} InsertSorted<T>(x: T, s: seq<T>, key: T -> nat)
    requires SortedBy(s, key)
    ensures SortedBy(Insert(x, s, key), key)
  {
    if s != [] && key(x) > key(s[0]) {
      var rest := Insert(x, s[1..], key);
      InsertSorted(x, s[1..], key);
      assert s == [s[0]] + s[1..];
      forall i | 0 <= i < |rest|
        ensures key(s[0]) <= key(rest[i])
      {
        assert rest[i] in multiset(s[1..]) + multiset{x};
        if rest[i] != x {
          assert rest[i] in s[1..];
        }
      }
    }
  }

  /** A stable sort by key (insertion sort), the model of Python's `sorted`. */
  function Sort<T(==)>(s: seq<T>, key: T -> nat): (r: seq<T>)
    ensures multiset(r) == multiset(s)
    ensures SortedBy(r, key)
  {
    if s == [] then []
    else
      assert s == [s[0]] + s[1..];
      InsertSorted(s[0], Sort(s[1..], key), key);
      Insert(s[0], Sort(s[1..], key), key)
  }

  /** Two elements out of key order are swapped. */
  lemma SortTwo<T>(x: T, y: T, key: T -> nat)
    requires key(y) < key(x)
    ensures Sort([x, y], key) == [y, x]
  {
    assert [x, y][1..] == [y];
    assert [y][1..] == [];
    assert Sort([y], key) == Insert(y, [], key) == [y];
    assert Insert(x, [y], key) == [y] + Insert(x, [], key);
  }

  /** The elements of `s` whose key is `k`, in their original order. */
  function WithKey<T>(s: seq<T>, key: T -> nat, k: nat): (r: seq<T>)
    ensures |r| <= |s|
    ensures forall y | y in r :: key(y) == k
  {
    if s == [] then []
    else (if key(s[0]) == k then [s[0]] else []) + WithKey(s[1..], key, k)
  }

  lemma {:induction false} WithKeyInsert<T>(x: T, s: seq<T>, key: T -> nat, k: nat)
    ensures WithKey(Insert(x, s, key), key, k)
         == (if key(x) == k then [x] else []) + WithKey(s, key, k)
  {
    var r := Insert(x, s, key);
    if s == [] || key(x) <= key(s[0]) {
      assert r == [x] + s;
      assert r[0] == x && r[1..] == s;
    } else {
      var rest := Insert(x, s[1..], key);
      assert r == [s[0]] + rest;
      assert r[0] == s[0] && r[1..] == rest;
      WithKeyInsert(x, s[1..], key, k);
      assert WithKey(s, key, k)
          == (if key(s[0]) == k then [s[0]] else []) + WithKey(s[1..], key, k);
    }
  }

  /** Stability: among the elements with any one key, the sort keeps the
      input order. */
  lemma {:induction false} SortStable<T>(s: seq<T>, key: T -> nat, k: nat)
    ensures WithKey(Sort(s, key), key, k) == WithKey(s, key, k)
  {
    if s != [] {
      SortStable(s[1..], key, k);
      WithKeyInsert(s[0], Sort(s[1..], key), key, k);
    }
  }

  /** An already sorted input comes back unchanged. */
  lemma {:induction false} SortOfSorted<T>(s: seq<T>, key: T -> nat)
    requires SortedBy(s, key)
    ensures Sort(s, key) == s
  {
    if s != [] {
      assert SortedBy(s[1..], key);
      SortOfSorted(s[1..], key);
      assert s == [s[0]] + s[1..];
    }
  }

  lemma SortIdempotent<T>(s: seq<T>, key: T -> nat)
    ensures Sort(Sort(s, key), key) == Sort(s, key)
  {
    SortOfSorted(Sort(s, key), key);
  }

  /** The key tells the elements of `s` apart. */
  ghost predicate KeyInjective<T>(s: seq<T>, key: T -> nat) {
    forall i, j :: 0 <= i < |s| && 0 <= j < |s| && key(s[i]) == key(s[j]) ==> s[i] == s[j]
  }

  /** Two sorted arrangements of one multiset are equal when the key tells
      the elements apart. */
  lemma {:induction false} SortedUnique<T>(a: seq<T>, b: seq<T>, key: T -> nat)
    requires SortedBy(a, key) && SortedBy(b, key)
    requires multiset(a) == multiset(b)
    requires KeyInjective(a, key)
    ensures a == b
  {
    assert |b| == |a| by {
      assert |multiset(a)| == |multiset(b)|;
    }
    if a != [] {
      SortedHeads(a, b, key);
      MultisetTails(a, b);
      KeyInjectiveTail(a, key);
      SortedUnique(a[1..], b[1..], key);
      assert a == [a[0]] + a[1..];
      assert b == [b[0]] + b[1..];
    }
  }

  lemma SortedHeads<T>(a: seq<T>, b: seq<T>, key: T -> nat)
    requires a != [] && SortedBy(a, key) && SortedBy(b, key)
    requires multiset(a) == multiset(b)
    requires KeyInjective(a, key)
    ensures b != [] && a[0] == b[0]
  {
    assert a[0] in multiset(b);
    var j :| 0 <= j < |b| && b[j] == a[0];
    assert b[0] in multiset(a);
    var i :| 0 <= i < |a| && a[i] == b[0];
    assert key(a[0]) <= key(a[i]) == key(b[0]);
    assert key(b[0]) <= key(b[j]) == key(a[0]);
  }

  lemma KeyInjectiveTail<T>(a: seq<T>, key: T -> nat)
    requires a != [] && KeyInjective(a, key)
    ensures KeyInjective(a[1..], key)
  {
    forall p, q | 0 <= p < |a[1..]| && 0 <= q < |a[1..]| && key(a[1..][p]) == key(a[1..][q])
      ensures a[1..][p] == a[1..][q]
    {
      assert a[1..][p] == a[p + 1] && a[1..][q] == a[q + 1];
    }
  }

  /** The first name of `ds` missing from the compass order: the one whose
      lookup raises `ValueError` when `sorted` computes the keys. */
  function FirstUnknown(rose: Rose, ds: seq<string>): (u: Option<string>)
    ensures u.None? <==> forall i :: 0 <= i < |ds| ==> ds[i] in Order(rose)
    ensures u.Some? ==> exists i :: 0 <= i < |ds| && ds[i] == u.value && u.value !in Order(rose)
                                   && forall j :: 0 <= j < i ==> ds[j] in Order(rose)
  {
    if ds == [] then None
    else if ds[0] !in Order(rose) then Some(ds[0])
    else
      var u := FirstUnknown(rose, ds[1..]);
      if u.Some? then
        ghost var i :| 0 <= i < |ds[1..]| && ds[1..][i] == u.value && u.value !in Order(rose)
                       && forall j :: 0 <= j < i ==> ds[1..][j] in Order(rose);
        assert ds[i + 1] == u.value;
        u
      else u
  }

  predicate InCompassOrder(rose: Rose, ds: seq<string>) {
    forall i, j :: 0 <= i < j < |ds| ==> Rank(Order(rose), ds[i]) <= Rank(Order(rose), ds[j])
  }

  /** `sort_wind_directions`: fails on the first unknown name, otherwise
      returns the input rearranged into compass order. */
  function SortDirections(rose: Rose, ds: seq<string>): (r: Result<seq<string>, string>)
    ensures r.Failure? <==> exists i :: 0 <= i < |ds| && ds[i] !in Order(rose)
    ensures r.Failure? ==> r.error in ds && r.error !in Order(rose)
    ensures r.Success? ==> multiset(r.value) == multiset(ds) && InCompassOrder(rose, r.value)
  {
    match FirstUnknown(rose, ds)
    case Some(u) => Failure(u)
    case None =>
      var sorted := Sort(ds, CompassKey(rose));
      assert SortedBy(sorted, CompassKey(rose));
      Success(sorted)
  }

  /** Sorting a sorted list of directions changes nothing. */
  lemma SortDirectionsIdempotent(rose: Rose, ds: seq<string>)
    requires SortDirections(rose, ds).Success?
    ensures SortDirections(rose, SortDirections(rose, ds).value) == SortDirections(rose, ds)
  {
    var key := CompassKey(rose);
    var s := Sort(ds, key);
    assert SortDirections(rose, ds) == Success(s);
    forall i | 0 <= i < |s|
      ensures s[i] in Order(rose)
    {
      assert s[i] in multiset(ds);
    }
    assert FirstUnknown(rose, s).None?;
    SortOfSorted(s, key);
  }

  lemma {:induction false} RankOfDistinct<T>(o: seq<T>, i: nat)
    requires Distinct(o) && i < |o|
    ensures Rank(o, o[i]) == i
  {
    var k := Rank(o, o[i]);
    assert o[k] == o[i];
  }

  /** A distinct list is sorted by its own positions, and those positions
      tell its elements apart. */
  lemma RankOrdersDistinct(o: seq<string>, key: string -> nat)
    requires Distinct(o)
    requires forall d :: key(d) == Rank(o, d)
    ensures SortedBy(o, key) && KeyInjective(o, key)
  {
    forall i | 0 <= i < |o|
      ensures key(o[i]) == i
    {
      RankOfDistinct(o, i);
    }
  }

  /** Any arrangement of the canonical names sorts back to the canonical
      order. */
  lemma SortDirectionsCanonical(rose: Rose, ds: seq<string>)
    requires multiset(ds) == multiset(Order(rose))
    ensures SortDirections(rose, ds) == Success(Order(rose))
  {
    var o := Order(rose);
    forall i | 0 <= i < |ds|
      ensures ds[i] in o
    {
      assert ds[i] in multiset(o);
    }
    SortToRankOrder(o, ds, CompassKey(rose));
  }

  /** Sorting by rank in a duplicate-free list rebuilds that list from
      any of its arrangements. */
  lemma SortToRankOrder(o: seq<string>, ds: seq<string>, key: string -> nat)
    requires Distinct(o)
    requires forall d :: key(d) == Rank(o, d)
    requires multiset(ds) == multiset(o)
    ensures Sort(ds, key) == o
  {
    RankOrdersDistinct(o, key);
    SortedUnique(o, Sort(ds, key), key);
  }
}
