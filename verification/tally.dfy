/** The frequency table and the steps that build it: counting per
    (direction, speed class), zero-filling missing directions, replacing
    the direction column by its sorted version, percentages and the pivot.
    A table is the DataFrame with columns `wind_direction`, `ff` and
    `frequency`, one `Row` per DataFrame row. */
module Tally {
  import opened Wrappers
  import opened Errors
  import opened Sequences
  import opened Compass
  import opened SpeedBins
  import opened Ordering

  datatype Row = Row(dir: string, ff: SpeedLabel, freq: nat)

  type Table = seq<Row>

  /** A grouping key: a direction name and a speed class. */
  type Key = (string, SpeedLabel)

  /** The `wind_direction` column. */
  function Dirs(t: Table): (ds: seq<string>)
    ensures |ds| == |t|
    ensures forall i :: 0 <= i < |t| ==> ds[i] == t[i].dir
  {
    seq(|t|, i requires 0 <= i < |t| => t[i].dir)
  }

  /** The (direction, class) pair of every row. */
  function Keys(t: Table): (ks: seq<Key>)
    ensures |ks| == |t|
    ensures forall i :: 0 <= i < |t| ==> ks[i] == (t[i].dir, t[i].ff)
  {
    seq(|t|, i requires 0 <= i < |t| => (t[i].dir, t[i].ff))
  }

  /** `frequency.sum()`. */
  function Total(t: Table): nat {
    if t == [] then 0 else t[0].freq + Total(t[1..])
  }

  lemma {:induction false} TotalAppend(a: Table, b: Table)
    ensures Total(a + b) == Total(a) + Total(b)
  {
    if a == [] {
      assert a + b == b;
    } else {
      assert (a + b)[1..] == a[1..] + b;
      TotalAppend(a[1..], b);
    }
  }

  /** Tables whose `frequency` columns agree position by position have
      the same total. */
  lemma {:induction false} TotalSameFrequencies(a: Table, b: Table)
    requires |a| == |b|
    requires forall i :: 0 <= i < |a| ==> a[i].freq == b[i].freq
    ensures Total(a) == Total(b)
  {
    if a != [] {
      TotalSameFrequencies(a[1..], b[1..]);
    }
  }

  /** Every direction of `dirs` paired with every class of `labels`,
      direction-major: the order in which grouped rows come out. */
  function Grid(dirs: seq<string>, labels: seq<SpeedLabel>): (g: seq<Key>)
    ensures forall k :: k in g <==> k.0 in dirs && k.1 in labels
    ensures Distinct(dirs) && Distinct(labels) ==> Distinct(g)
  {
    if dirs == [] then []
    else
      var head := seq(|labels|, i requires 0 <= i < |labels| => (dirs[0], labels[i]));
      var rest := Grid(dirs[1..], labels);
      assert forall k :: k in head <==> k.0 == dirs[0] && k.1 in labels by {
        forall k: Key | k.0 == dirs[0] && k.1 in labels
          ensures k in head
        {
          var i :| 0 <= i < |labels| && labels[i] == k.1;
          assert head[i] == k;
        }
      }
      assert forall d :: d in dirs <==> d == dirs[0] || d in dirs[1..];
      if Distinct(dirs) && Distinct(labels) then
        DistinctConcat(head, rest);
        head + rest
      else head + rest
  }

  /** Key `a` comes before key `b` when the lists are read direction-major:
      first by the position of the direction in `dirs`, then by the
      position of the class in `labels`. */
  predicate KeyBefore(dirs: seq<string>, labels: seq<SpeedLabel>, a: Key, b: Key) {
    || Rank(dirs, a.0) < Rank(dirs, b.0)
    || (a.0 == b.0 && Rank(labels, a.1) < Rank(labels, b.1))
  }

  predicate InGridOrder(dirs: seq<string>, labels: seq<SpeedLabel>, ks: seq<Key>) {
    forall i, j :: 0 <= i < j < |ks| ==> KeyBefore(dirs, labels, ks[i], ks[j])
  }

  /** The grid of distinct directions and classes is in grid order. */
  lemma {:induction false} GridOrdered(dirs: seq<string>, labels: seq<SpeedLabel>)
    requires Distinct(dirs) && Distinct(labels)
    ensures InGridOrder(dirs, labels, Grid(dirs, labels))
  {
    if dirs != [] {
      var head := seq(|labels|, i requires 0 <= i < |labels| => (dirs[0], labels[i]));
      var rest := Grid(dirs[1..], labels);
      assert Grid(dirs, labels) == head + rest;
      GridOrdered(dirs[1..], labels);
      forall i, j | 0 <= i < j < |head|
        ensures KeyBefore(dirs, labels, head[i], head[j])
      {
        RankOfDistinct(labels, i);
        RankOfDistinct(labels, j);
      }
      assert forall y :: y in rest ==> y.0 in dirs[1..] && y.0 != dirs[0];
      OrderedShift(dirs, labels, rest);
      OrderedConcat(head, rest, dirs, labels);
    }
  }

  /** Keys whose directions all lie past the first keep their order when
      the first direction is put back in front. */
  lemma OrderedShift(dirs: seq<string>, labels: seq<SpeedLabel>, ks: seq<Key>)
    requires dirs != [] && InGridOrder(dirs[1..], labels, ks)
    requires forall x :: x in ks ==> x.0 != dirs[0]
    ensures InGridOrder(dirs, labels, ks)
  {
    forall i, j | 0 <= i < j < |ks|
      ensures KeyBefore(dirs, labels, ks[i], ks[j])
    {
      assert KeyBefore(dirs[1..], labels, ks[i], ks[j]);
      assert ks[i] in ks && ks[j] in ks;
    }
  }

  lemma OrderedConcat(a: seq<Key>, b: seq<Key>, dirs: seq<string>, labels: seq<SpeedLabel>)
    requires InGridOrder(dirs, labels, a) && InGridOrder(dirs, labels, b)
    requires forall x, y :: x in a && y in b ==> KeyBefore(dirs, labels, x, y)
    ensures InGridOrder(dirs, labels, a + b)
  {
    var ab := a + b;
    forall i, j | 0 <= i < j < |ab|
      ensures KeyBefore(dirs, labels, ab[i], ab[j])
    {
      if j >= |a| {
        assert ab[j] == b[j - |a|];
        if i >= |a| {
          assert ab[i] == b[i - |a|];
        } else {
          assert ab[i] == a[i];
        }
      }
    }
  }

  /** One row per key with a non-zero count, in key order. */
  function CountRows(keys: seq<Key>, m: multiset<Key>): (t: Table)
    ensures forall i :: 0 <= i < |t| ==> 0 < t[i].freq == m[(t[i].dir, t[i].ff)]
    ensures forall k :: k in Keys(t) <==> k in keys && m[k] > 0
  {
    if keys == [] then []
    else
      var k := keys[0];
      var rest := CountRows(keys[1..], m);
      var head := if m[k] > 0 then [Row(k.0, k.1, m[k])] else [];
      assert Keys(head + rest) == Keys(head) + Keys(rest);
      assert Keys(head) == if m[k] > 0 then [k] else [];
      assert forall x :: x in keys <==> x == k || x in keys[1..];
      head + rest
  }

  lemma {:induction false} CountRowsDistinct(keys: seq<Key>, m: multiset<Key>)
    requires Distinct(keys)
    ensures Distinct(Keys(CountRows(keys, m)))
  {
    if keys != [] {
      var k := keys[0];
      var rest := CountRows(keys[1..], m);
      CountRowsDistinct(keys[1..], m);
      if m[k] > 0 {
        var row := Row(k.0, k.1, m[k]);
        assert CountRows(keys, m) == [row] + rest;
        KeysCons(row, rest);
        assert k !in keys[1..];
        DistinctConcat([k], Keys(rest));
      } else {
        assert CountRows(keys, m) == rest;
      }
    }
  }

  /** Dropping the zero counts keeps the keys in grid order. */
  lemma {:induction false} CountRowsOrdered(keys: seq<Key>, m: multiset<Key>,
                                            dirs: seq<string>, labels: seq<SpeedLabel>)
    requires InGridOrder(dirs, labels, keys)
    ensures InGridOrder(dirs, labels, Keys(CountRows(keys, m)))
  {
    if keys != [] {
      var k := keys[0];
      var tail := keys[1..];
      var rest := CountRows(tail, m);
      OrderedTail(keys, dirs, labels);
      CountRowsOrdered(tail, m, dirs, labels);
      if m[k] > 0 {
        var row := Row(k.0, k.1, m[k]);
        assert CountRows(keys, m) == [row] + rest;
        KeysCons(row, rest);
        FirstBeforeRest(keys, m, dirs, labels);
        OrderedConcat([k], Keys(rest), dirs, labels);
      } else {
        assert CountRows(keys, m) == rest;
      }
    }
  }

  lemma OrderedTail(keys: seq<Key>, dirs: seq<string>, labels: seq<SpeedLabel>)
    requires keys != [] && InGridOrder(dirs, labels, keys)
    ensures InGridOrder(dirs, labels, keys[1..])
  {
    var tail := keys[1..];
    forall i, j | 0 <= i < j < |tail|
      ensures KeyBefore(dirs, labels, tail[i], tail[j])
    {
      assert tail[i] == keys[i + 1] && tail[j] == keys[j + 1];
    }
  }

  /** The first key precedes every key counted from the rest. */
  lemma FirstBeforeRest(keys: seq<Key>, m: multiset<Key>, dirs: seq<string>, labels: seq<SpeedLabel>)
    requires keys != [] && InGridOrder(dirs, labels, keys)
    ensures forall x :: x in Keys(CountRows(keys[1..], m)) ==> KeyBefore(dirs, labels, keys[0], x)
  {
    forall x | x in Keys(CountRows(keys[1..], m))
      ensures KeyBefore(dirs, labels, keys[0], x)
    {
      var p :| 0 <= p < |keys[1..]| && keys[1..][p] == x;
      assert keys[p + 1] == x;
    }
  }

  lemma KeysCons(r: Row, t: Table)
    ensures Keys([r] + t) == [(r.dir, r.ff)] + Keys(t)
  {
    var u := [r] + t;
    var ks := Keys(u);
    var rhs := [(r.dir, r.ff)] + Keys(t);
    forall i | 0 <= i < |ks|
      ensures ks[i] == rhs[i]
    {
      if i > 0 {
        assert u[i] == t[i - 1];
      }
    }
    assert ks == rhs;
  }

  lemma {:induction false} CountRowsTotal(keys: seq<Key>, m: multiset<Key>)
    ensures Total(CountRows(keys, m)) == SumCounts(keys, m)
  {
    if keys != [] {
      var k := keys[0];
      var rest := CountRows(keys[1..], m);
      var head := if m[k] > 0 then [Row(k.0, k.1, m[k])] else [];
      assert CountRows(keys, m) == head + rest;
      CountRowsTotal(keys[1..], m);
      TotalAppend(head, rest);
    }
  }

  /** `groupby(['wind_direction', cut]).size().reset_index()` over the
      counted observations, each given as its (direction, class) key:
      one row per key that occurs, holding how many observations have it,
      directions in `dirOrder` and classes in label order. */
  function GroupCount(tagged: seq<Key>, dirOrder: seq<string>, labels: seq<SpeedLabel>): (t: Table)
    requires Distinct(dirOrder) && Distinct(labels)
    requires forall i :: 0 <= i < |tagged| ==> tagged[i].0 in dirOrder && tagged[i].1 in labels
    ensures forall i :: 0 <= i < |t| ==> 0 < t[i].freq == multiset(tagged)[(t[i].dir, t[i].ff)]
    ensures forall k :: k in Keys(t) <==> k in tagged
    ensures Distinct(Keys(t))
    ensures InGridOrder(dirOrder, labels, Keys(t))
    ensures Total(t) == |tagged|
  {
    var g := Grid(dirOrder, labels);
    SumCountsAll(g, tagged);
    CountRowsDistinct(g, multiset(tagged));
    CountRowsTotal(g, multiset(tagged));
    GridOrdered(dirOrder, labels);
    CountRowsOrdered(g, multiset(tagged), dirOrder, labels);
    CountRows(g, multiset(tagged))
  }

  /** The zero-fill loop of windrose_master.py and create_windrose.py: for
      each candidate name in turn, append `(name, placeholder, 0)` unless
      the table AS GROWN SO FAR already has a row for that name. */
  function ZeroFill(t: Table, candidates: seq<string>, placeholder: SpeedLabel): (r: Table)
    ensures |t| <= |r| && r[..|t|] == t
    ensures forall i :: |t| <= i < |r| ==>
              && r[i].dir !in Dirs(t) && r[i].dir in candidates
              && r[i].ff == placeholder && r[i].freq == 0
    decreases |candidates|
  {
    if candidates == [] then t
    else
      var c := candidates[0];
      var grown := if c in Dirs(t) then t else t + [Row(c, placeholder, 0)];
      assert grown[..|t|] == t;
      assert forall d :: d in Dirs(grown) ==> d in Dirs(t) || d == c;
      var r := ZeroFill(grown, candidates[1..], placeholder);
      assert r[..|t|] == grown[..|t|];
      r
  }

  /** One step of the zero-fill loop. */
  function Grow(t: Table, c: string, placeholder: SpeedLabel): (g: Table)
    ensures Dirs(g) == Dirs(t) + (if c in Dirs(t) then [] else [c])
    ensures c in Dirs(g)
  {
    if c in Dirs(t) then t
    else
      var g := t + [Row(c, placeholder, 0)];
      assert Dirs(g)[|t|] == c;
      g
  }

  lemma {:induction false} ZeroFillUnfold(t: Table, candidates: seq<string>, ph: SpeedLabel)
    requires candidates != []
    ensures ZeroFill(t, candidates, ph) == ZeroFill(Grow(t, candidates[0], ph), candidates[1..], ph)
  {
  }

  /** After the fill every candidate name has a row. */
  lemma {:induction false} ZeroFillCovers(t: Table, candidates: seq<string>, ph: SpeedLabel)
    ensures forall d :: d in candidates ==> d in Dirs(ZeroFill(t, candidates, ph))
    decreases |candidates|
  {
    if candidates != [] {
      var c := candidates[0];
      var grown := Grow(t, c, ph);
      ZeroFillUnfold(t, candidates, ph);
      ZeroFillCovers(grown, candidates[1..], ph);
      var r := ZeroFill(grown, candidates[1..], ph);
      assert c in Dirs(grown);
      var i :| 0 <= i < |grown| && grown[i].dir == c;
      assert r[..|grown|] == grown;
      assert r[i] == grown[i];
      assert Dirs(r)[i] == c;
    }
  }

  /** Each name is appended at most once. */
  lemma {:induction false} ZeroFillAppendsOnce(t: Table, candidates: seq<string>, ph: SpeedLabel)
    ensures var r := ZeroFill(t, candidates, ph);
            forall i, j :: |t| <= i < j < |r| ==> r[i].dir != r[j].dir
    decreases |candidates|
  {
    if candidates != [] {
      var c := candidates[0];
      var grown := Grow(t, c, ph);
      ZeroFillUnfold(t, candidates, ph);
      ZeroFillAppendsOnce(grown, candidates[1..], ph);
      if c !in Dirs(t) {
        GrowFresh(t, candidates[1..], c, ph);
      }
    }
  }

  /** A freshly grown row's name is not appended again later. */
  lemma GrowFresh(t: Table, rest: seq<string>, c: string, ph: SpeedLabel)
    requires c !in Dirs(t)
    ensures var r := ZeroFill(Grow(t, c, ph), rest, ph);
            |r| > |t| && r[|t|].dir == c && forall j :: |t| < j < |r| ==> r[j].dir != c
  {
    var grown := Grow(t, c, ph);
    var r := ZeroFill(grown, rest, ph);
    assert |grown| == |t| + 1;
    assert r[..|grown|] == grown;
    assert r[|t|] == grown[|t|];
    assert Dirs(grown)[|t|] == c;
    assert c in Dirs(grown);
  }

  /** The fill adds rows of frequency 0 only, so the total is unchanged. */
  lemma {:induction false} ZeroFillTotal(t: Table, candidates: seq<string>, ph: SpeedLabel)
    ensures Total(ZeroFill(t, candidates, ph)) == Total(t)
    decreases |candidates|
  {
    var r := ZeroFill(t, candidates, ph);
    assert r == r[..|t|] + r[|t|..];
    TotalAppend(r[..|t|], r[|t|..]);
    TotalZero(r[|t|..]);
  }

  lemma {:induction false} TotalZero(t: Table)
    requires forall i :: 0 <= i < |t| ==> t[i].freq == 0
    ensures Total(t) == 0
  {
    if t != [] {
      TotalZero(t[1..]);
    }
  }

  /** The rows windy.py concatenates: one placeholder row per candidate
      missing from `present`, computed once from the grouped table. */
  function MissingRows(present: seq<string>, candidates: seq<string>, placeholder: SpeedLabel): (rs: Table)
    ensures forall i :: 0 <= i < |rs| ==>
              rs[i].dir !in present && rs[i].dir in candidates && rs[i].ff == placeholder && rs[i].freq == 0
    ensures forall d :: d in candidates && d !in present ==> d in Dirs(rs)
  {
    if candidates == [] then []
    else
      var rest := MissingRows(present, candidates[1..], placeholder);
      var head := if candidates[0] in present then [] else [Row(candidates[0], placeholder, 0)];
      assert Dirs(head + rest) == Dirs(head) + Dirs(rest);
      assert Dirs(head) == if candidates[0] in present then [] else [candidates[0]];
      head + rest
  }

  /** Each absent name is appended as often as it is listed. */
  lemma {:induction false} MissingRowsCount(present: seq<string>, candidates: seq<string>, ph: SpeedLabel)
    ensures forall d :: multiset(Dirs(MissingRows(present, candidates, ph)))[d] ==
              if d in present then 0 else multiset(candidates)[d]
  {
    if candidates != [] {
      var c := candidates[0];
      var rest := MissingRows(present, candidates[1..], ph);
      MissingRowsCount(present, candidates[1..], ph);
      assert multiset(candidates) == multiset{c} + multiset(candidates[1..]) by {
        assert candidates == [c] + candidates[1..];
      }
      if c !in present {
        var head := [Row(c, ph, 0)];
        assert MissingRows(present, candidates, ph) == head + rest;
        DirsConcat(head, rest);
        assert Dirs(head) == [c];
        assert multiset(Dirs(head + rest)) == multiset{c} + multiset(Dirs(rest));
      } else {
        assert MissingRows(present, candidates, ph) == [] + rest == rest;
      }
    }
  }

  /** windy.py's zero fill: `pd.concat` of the table and its missing rows.
      Unlike the loop, a name listed twice is appended twice. */
  function ZeroFillConcat(t: Table, candidates: seq<string>, placeholder: SpeedLabel): (r: Table)
    ensures |t| <= |r| && r[..|t|] == t
    ensures forall i :: |t| <= i < |r| ==>
              && r[i].dir !in Dirs(t) && r[i].dir in candidates
              && r[i].ff == placeholder && r[i].freq == 0
    ensures forall d :: d in candidates ==> d in Dirs(r)
    ensures forall d :: multiset(Dirs(r))[d] ==
              if d in Dirs(t) then multiset(Dirs(t))[d] else multiset(candidates)[d]
  {
    var rs := MissingRows(Dirs(t), candidates, placeholder);
    var r := t + rs;
    assert r[..|t|] == t;
    assert forall i :: |t| <= i < |r| ==> r[i] == rs[i - |t|];
    DirsConcat(t, rs);
    MissingRowsCount(Dirs(t), candidates, placeholder);
    r
  }

  lemma {:induction false} MissingRowsSkip(present: seq<string>, c: string, candidates: seq<string>, ph: SpeedLabel)
    requires c !in candidates
    ensures MissingRows(present + [c], candidates, ph) == MissingRows(present, candidates, ph)
  {
    if candidates != [] {
      MissingRowsSkip(present, c, candidates[1..], ph);
    }
  }

  /** With distinct candidates, checking the growing table (the loop) and
      checking the table once (the concat) append the same rows. */
  lemma {:induction false} ZeroFillAgrees(t: Table, candidates: seq<string>, ph: SpeedLabel)
    requires Distinct(candidates)
    ensures ZeroFill(t, candidates, ph) == ZeroFillConcat(t, candidates, ph)
    decreases |candidates|
  {
    if candidates == [] {
      assert t + [] == t;
    } else {
      var c := candidates[0];
      var rest := candidates[1..];
      assert Distinct(rest);
      assert candidates == [c] + rest;
      ZeroFillUnfold(t, candidates, ph);
      ZeroFillAgrees(Grow(t, c, ph), rest, ph);
      if c in Dirs(t) {
        assert MissingRows(Dirs(t), [c] + rest, ph) == MissingRows(Dirs(t), rest, ph);
      } else {
        assert c !in rest;
        GrowThenMissing(t, c, rest, ph);
      }
    }
  }

  /** One fresh step of the loop followed by the concat of the rest is the
      concat of the whole list. */
  lemma GrowThenMissing(t: Table, c: string, rest: seq<string>, ph: SpeedLabel)
    requires c !in Dirs(t) && c !in rest
    ensures Grow(t, c, ph) + MissingRows(Dirs(Grow(t, c, ph)), rest, ph)
            == t + MissingRows(Dirs(t), [c] + rest, ph)
  {
    var row := Row(c, ph, 0);
    var m := MissingRows(Dirs(t), rest, ph);
    calc {
      Grow(t, c, ph) + MissingRows(Dirs(Grow(t, c, ph)), rest, ph);
      (t + [row]) + MissingRows(Dirs(t) + [c], rest, ph);
      { MissingRowsSkip(Dirs(t), c, rest, ph); }
      (t + [row]) + m;
      t + ([row] + m);
      { MissingRowsFreshHead(Dirs(t), c, rest, ph); }
      t + MissingRows(Dirs(t), [c] + rest, ph);
    }
  }

  lemma MissingRowsFreshHead(present: seq<string>, c: string, rest: seq<string>, ph: SpeedLabel)
    requires c !in present
    ensures MissingRows(present, [c] + rest, ph) == [Row(c, ph, 0)] + MissingRows(present, rest, ph)
  {
    assert ([c] + rest)[0] == c && ([c] + rest)[1..] == rest;
  }

  lemma {:induction false} ZeroFillSplit(t: Table, a: seq<string>, b: seq<string>, ph: SpeedLabel)
    ensures ZeroFill(t, a + b, ph) == ZeroFill(ZeroFill(t, a, ph), b, ph)
    decreases |a|
  {
    if a == [] {
      assert a + b == b;
    } else {
      assert (a + b)[0] == a[0] && (a + b)[1..] == a[1..] + b;
      ZeroFillUnfold(t, a, ph);
      ZeroFillUnfold(t, a + b, ph);
      ZeroFillSplit(Grow(t, a[0], ph), a[1..], b, ph);
    }
  }

  /** A candidate repeated at the end of the list adds nothing. */
  lemma ZeroFillRepeatAtEnd(t: Table, candidates: seq<string>, x: string, ph: SpeedLabel)
    requires x in candidates
    ensures ZeroFill(t, candidates + [x], ph) == ZeroFill(t, candidates, ph)
  {
    ZeroFillSplit(t, candidates, [x], ph);
    var r := ZeroFill(t, candidates, ph);
    ZeroFillCovers(t, candidates, ph);
    ZeroFillUnfold(r, [x], ph);
    assert Grow(r, x, ph) == r;
    assert ZeroFill(r, [x], ph) == ZeroFill(r, [], ph);
  }

  /** create_windrose.py iterates over the classifier's list, where `N`
      occurs twice; by the second `N` the name is always present, so the
      result is the same as iterating over the canonical order. */
  lemma ZeroFillRepeatedNorth(rose: Rose, t: Table, ph: SpeedLabel)
    ensures ZeroFill(t, Names(rose), ph) == ZeroFill(t, Order(rose), ph)
  {
    var o := Order(rose);
    assert Names(rose) == o + [o[0]];
    ZeroFillRepeatAtEnd(t, o, o[0], ph);
  }

  /** Replace the `wind_direction` column by `sort_wind_directions` of it,
      as all three scripts do: the column is sorted on its own, while `ff`
      and `frequency` stay where they were. */
  function SortDirectionColumn(rose: Rose, t: Table): (r: Result<Table, Error>)
    ensures r.Failure? <==> exists i :: 0 <= i < |t| && t[i].dir !in Order(rose)
    ensures r.Failure? ==> r.error.UnknownDirection? && r.error.name in Dirs(t)
    ensures r.Success? ==>
              && |r.value| == |t|
              && (forall i :: 0 <= i < |t| ==> r.value[i].ff == t[i].ff && r.value[i].freq == t[i].freq)
              && multiset(Dirs(r.value)) == multiset(Dirs(t))
              && InCompassOrder(rose, Dirs(r.value))
  {
    match SortDirections(rose, Dirs(t))
    case Failure(u) => Failure(UnknownDirection(u))
    case Success(ds) =>
      assert |ds| == |t| by {
        assert |multiset(ds)| == |multiset(Dirs(t))|;
      }
      var r := Relabel(t, ds);
      assert Dirs(r) == ds;
      Success(r)
  }

  /** The table whose i-th row carries the i-th given direction and the
      class and count of the i-th row of `t`. */
  function Relabel(t: Table, ds: seq<string>): (r: Table)
    requires |ds| == |t|
    ensures |r| == |t|
    ensures forall i :: 0 <= i < |t| ==> r[i] == Row(ds[i], t[i].ff, t[i].freq)
  {
    seq(|t|, i requires 0 <= i < |t| => Row(ds[i], t[i].ff, t[i].freq))
  }

  /** Sorting the direction column keeps the total. */
  lemma SortDirectionColumnTotal(rose: Rose, t: Table)
    requires SortDirectionColumn(rose, t).Success?
    ensures Total(SortDirectionColumn(rose, t).value) == Total(t)
  {
    TotalSameFrequencies(SortDirectionColumn(rose, t).value, t);
  }

  /** The sort key of the corrected row sort. */
  function RowKey(rose: Rose): Row -> nat {
    (r: Row) => Rank(Order(rose), r.dir)
  }

  /** Sorting whole rows by direction (stable), which keeps every
      direction together with its class and count. */
  function SortRows(rose: Rose, t: Table): (r: Result<Table, Error>)
    ensures r.Failure? <==> exists i :: 0 <= i < |t| && t[i].dir !in Order(rose)
    ensures r.Success? ==>
              && multiset(r.value) == multiset(t)
              && InCompassOrder(rose, Dirs(r.value))
  {
    match FirstUnknown(rose, Dirs(t))
    case Some(u) => Failure(UnknownDirection(u))
    case None =>
      var sorted := Sort(t, RowKey(rose));
      RowOrderIsCompassOrder(rose, sorted);
      Success(sorted)
  }

  /** Rows sorted by their direction's rank have their directions in
      compass order. */
  lemma RowOrderIsCompassOrder(rose: Rose, t: Table)
    requires SortedBy(t, RowKey(rose))
    ensures InCompassOrder(rose, Dirs(t))
  {
    forall i, j | 0 <= i < j < |t|
      ensures Rank(Order(rose), Dirs(t)[i]) <= Rank(Order(rose), Dirs(t)[j])
    {
      assert RowKey(rose)(t[i]) <= RowKey(rose)(t[j]);
    }
  }

  /** With the column-only sort, a table whose two rows are out of compass
      order keeps its counts in place while the directions swap: each
      count ends up under the other row's direction. */
  lemma SortDirectionColumnMisaligns(rose: Rose, x: Row, y: Row, i: nat, j: nat)
    requires i < j < rose.Count() && y.dir == Order(rose)[i] && x.dir == Order(rose)[j]
    ensures SortDirectionColumn(rose, [x, y])
            == Success([Row(y.dir, x.ff, x.freq), Row(x.dir, y.ff, y.freq)])
  {
    RankOfDistinct(Order(rose), i);
    RankOfDistinct(Order(rose), j);
    calc {
      SortDirectionColumn(rose, [x, y]);
      { DirsTwo(x, y);
        SortDirectionsSwap(rose, x.dir, y.dir);
        SortDirectionColumnOf(rose, [x, y], [y.dir, x.dir]); }
      Success(Relabel([x, y], [y.dir, x.dir]));
      { RelabelTwo(x, y, y.dir, x.dir); }
      Success([Row(y.dir, x.ff, x.freq), Row(x.dir, y.ff, y.freq)]);
    }
  }

  lemma DirsTwo(x: Row, y: Row)
    ensures Dirs([x, y]) == [x.dir, y.dir]
  {
    var ds := Dirs([x, y]);
    assert ds[0] == x.dir && ds[1] == y.dir;
  }

  lemma RelabelTwo(x: Row, y: Row, a: string, b: string)
    ensures Relabel([x, y], [a, b]) == [Row(a, x.ff, x.freq), Row(b, y.ff, y.freq)]
  {
    var r := Relabel([x, y], [a, b]);
    assert r[0] == Row(a, x.ff, x.freq);
  }

  /** Two known directions out of compass order sort into swapped order. */
  lemma SortDirectionsSwap(rose: Rose, a: string, b: string)
    requires a in Order(rose) && b in Order(rose)
    requires Rank(Order(rose), b) < Rank(Order(rose), a)
    ensures SortDirections(rose, [a, b]) == Success([b, a])
  {
    var key := CompassKey(rose);
    assert FirstUnknown(rose, [a, b]) == None;
    assert SortDirections(rose, [a, b]) == Success(Sort([a, b], key));
    assert key(b) < key(a);
    SortTwo(a, b, key);
  }

  /** The column-only sort pairs the i-th sorted direction with the i-th
      row's class and count. */
  lemma SortDirectionColumnOf(rose: Rose, t: Table, ds: seq<string>)
    requires SortDirections(rose, Dirs(t)) == Success(ds)
    ensures |ds| == |t|
    ensures SortDirectionColumn(rose, t) == Success(Relabel(t, ds))
  {
    assert |multiset(ds)| == |multiset(Dirs(t))|;
  }

  /** The whole-row sort of the same table swaps the rows, keeping each
      count with its own direction. */
  lemma SortRowsKeepsCounts(rose: Rose, x: Row, y: Row, i: nat, j: nat)
    requires i < j < rose.Count() && y.dir == Order(rose)[i] && x.dir == Order(rose)[j]
    ensures SortRows(rose, [x, y]) == Success([y, x])
  {
    RankOfDistinct(Order(rose), i);
    RankOfDistinct(Order(rose), j);
    DirsTwo(x, y);
    assert FirstUnknown(rose, [x.dir, y.dir]) == None;
    SortTwo(x, y, RowKey(rose));
  }

  /** The column-only sort leaves a table as it is exactly when its rows
      are already in compass order; otherwise some row's class and count
      are now listed under a different direction. */
  lemma SortDirectionColumnKeepsRowsIff(rose: Rose, t: Table)
    requires SortDirectionColumn(rose, t).Success?
    ensures SortDirectionColumn(rose, t).value == t <==> InCompassOrder(rose, Dirs(t))
  {
    if InCompassOrder(rose, Dirs(t)) {
      SortedColumnUnchanged(rose, t);
    }
  }

  /** A table already in compass order comes back unchanged. */
  lemma SortedColumnUnchanged(rose: Rose, t: Table)
    requires SortDirectionColumn(rose, t).Success? && InCompassOrder(rose, Dirs(t))
    ensures SortDirectionColumn(rose, t).value == t
  {
    var ds := SortDirections(rose, Dirs(t)).value;
    SortDirectionColumnOf(rose, t, ds);
    assert SortedBy(Dirs(t), CompassKey(rose));
    SortOfSorted(Dirs(t), CompassKey(rose));
    RelabelOwn(t);
  }

  lemma RelabelOwn(t: Table)
    ensures Relabel(t, Dirs(t)) == t
  {
  }

  /** Rearranging rows keeps the total. */
  lemma {:induction false} TotalPerm(a: Table, b: Table)
    requires multiset(a) == multiset(b)
    ensures Total(a) == Total(b)
    decreases |a|
  {
    if a == [] {
      assert |b| == |multiset(b)| == 0;
    } else {
      assert a[0] in multiset(b);
      var j :| 0 <= j < |b| && b[j] == a[0];
      var rest := b[..j] + b[j + 1..];
      assert b == b[..j] + [b[j]] + b[j + 1..];
      PermTail(a, b, j);
      TotalPerm(a[1..], rest);
      TotalAppend(b[..j] + [b[j]], b[j + 1..]);
      TotalAppend(b[..j], [b[j]]);
      TotalAppend(b[..j], b[j + 1..]);
    }
  }

  /** The two ways the scripts' sort step can be read: as written, only
      the direction column is sorted; as evidently intended, whole rows
      are. */
  datatype Sorting = ColumnOnly | WholeRows

  function Arrange(rose: Rose, t: Table, s: Sorting): (r: Result<Table, Error>)
    ensures r.Failure? <==> exists i :: 0 <= i < |t| && t[i].dir !in Order(rose)
    ensures r.Success? ==> |r.value| == |t| && InCompassOrder(rose, Dirs(r.value))
    ensures r.Success? && s == WholeRows ==> multiset(r.value) == multiset(t)
  {
    match s
    case ColumnOnly => SortDirectionColumn(rose, t)
    case WholeRows =>
      var r := SortRows(rose, t);
      if r.Success? then
        assert |r.value| == |multiset(r.value)| == |multiset(t)| == |t|;
        r
      else r
  }

  /** Either way the sort keeps the multiset of directions and the total. */
  lemma ArrangeKeeps(rose: Rose, t: Table, s: Sorting)
    requires forall i :: 0 <= i < |t| ==> t[i].dir in Order(rose)
    ensures multiset(Dirs(Arrange(rose, t, s).value)) == multiset(Dirs(t))
    ensures Total(Arrange(rose, t, s).value) == Total(t)
  {
    var v := Arrange(rose, t, s).value;
    if s == ColumnOnly {
      SortDirectionColumnTotal(rose, t);
    } else {
      TotalPerm(v, t);
      DirsPerm(v, t);
    }
  }

  /** Reordering whole rows keeps every (direction, class) key, and keeps
      them free of repeats. */
  lemma KeysPerm(t: Table, v: Table)
    requires multiset(t) == multiset(v)
    ensures forall k :: k in Keys(t) ==> k in Keys(v)
    ensures Distinct(Keys(t)) ==> Distinct(Keys(v))
  {
    forall k | k in Keys(t)
      ensures k in Keys(v)
    {
      var p :| 0 <= p < |t| && Keys(t)[p] == k;
      assert t[p] in multiset(v);
      var q :| 0 <= q < |v| && v[q] == t[p];
      assert Keys(v)[q] == k;
    }
    if Distinct(Keys(t)) {
      assert Distinct(t) by {
        forall p, q | 0 <= p < q < |t|
          ensures t[p] != t[q]
        {
          assert Keys(t)[p] != Keys(t)[q];
        }
      }
      DistinctPerm(t, v);
      forall i, j | 0 <= i < j < |v|
        ensures Keys(v)[i] != Keys(v)[j]
      {
        assert v[i] in multiset(t) && v[j] in multiset(t);
        var p :| 0 <= p < |t| && t[p] == v[i];
        var q :| 0 <= q < |t| && t[q] == v[j];
        assert Keys(t)[p] != Keys(t)[q] by {
          assert p != q;
        }
      }
    }
  }

  lemma {:induction false} DirsPerm(a: Table, b: Table)
    requires multiset(a) == multiset(b)
    ensures multiset(Dirs(a)) == multiset(Dirs(b))
    decreases |a|
  {
    if a == [] {
      assert |b| == |multiset(b)| == 0;
      assert Dirs(a) == Dirs(b) == [];
    } else {
      assert a[0] in multiset(b);
      var j :| 0 <= j < |b| && b[j] == a[0];
      PermTail(a, b, j);
      DirsPerm(a[1..], b[..j] + b[j + 1..]);
      DirsCons(a);
      DirsRemove(b, j);
    }
  }

  lemma DirsCons(a: Table)
    requires a != []
    ensures multiset(Dirs(a)) == multiset{a[0].dir} + multiset(Dirs(a[1..]))
  {
    assert a == [a[0]] + a[1..];
    DirsConcat([a[0]], a[1..]);
    assert Dirs([a[0]]) == [a[0].dir];
  }

  lemma DirsRemove(b: Table, j: nat)
    requires j < |b|
    ensures multiset(Dirs(b)) == multiset{b[j].dir} + multiset(Dirs(b[..j] + b[j + 1..]))
  {
    var front, back := b[..j], b[j + 1..];
    assert b == front + ([b[j]] + back);
    DirsConcat(front, [b[j]] + back);
    DirsConcat([b[j]], back);
    DirsConcat(front, back);
    assert Dirs([b[j]]) == [b[j].dir];
  }

  lemma DirsConcat(a: Table, b: Table)
    ensures Dirs(a + b) == Dirs(a) + Dirs(b)
  {
    var ab := a + b;
    forall i | 0 <= i < |ab|
      ensures Dirs(ab)[i] == (Dirs(a) + Dirs(b))[i]
    {
      if i >= |a| {
        assert ab[i] == b[i - |a|];
      }
    }
  }
}
