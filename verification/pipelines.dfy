/** The three frequency tables built from a parsed sheet:
    windrose_master.py (every sheet, 16 points, fixed knot classes),
    create_windrose.py (one sheet, 16 points, five classes spread over the
    observed speed range) and windy.py (one frame, 8 points, fixed
    classes, plus a percentage column). Each is: drop incomplete rows,
    look up `ddd` and `ff`, classify and count, add placeholder rows for
    unused directions, sort. */
module WindFrequency {
  import opened Wrappers
  import opened Errors
  import opened Sequences
  import opened Compass
  import opened SpeedBins
  import opened Ordering
  import opened Frames
  import opened Tally
  import opened Percent

  /** Strict lexicographic order on names, as Python compares strings. */
  predicate LexLess(a: string, b: string) {
    if a == [] then b != []
    else if b == [] then false
    else if a[0] != b[0] then a[0] < b[0]
    else LexLess(a[1..], b[1..])
  }

  const Alpha16: seq<string> :=
    ["E", "ENE", "ESE", "N", "NE", "NNE", "NNW", "NW", "S", "SE", "SSE", "SSW", "SW", "W", "WNW", "WSW"]

  const Alpha8: seq<string> := ["E", "N", "NE", "NW", "S", "SE", "SW", "W"]

  /** The order in which `groupby` lists the directions: the compass
      names sorted as strings. */
  function GroupOrder(rose: Rose): (a: seq<string>)
    ensures Distinct(a)
    ensures forall d :: d in a <==> d in Order(rose)
    ensures forall i :: 0 <= i < |a| - 1 ==> LexLess(a[i], a[i + 1])
  {
    match rose
    case Eight => Alpha8Sorted(); Alpha8Members(); Alpha8
    case Sixteen => Alpha16Sorted(); Alpha16Members(); Alpha16
  }

  lemma Alpha8Sorted()
    ensures forall i :: 0 <= i < |Alpha8| - 1 ==> LexLess(Alpha8[i], Alpha8[i + 1])
  {
  }

  lemma Alpha8Members()
    ensures Distinct(Alpha8)
    ensures forall d :: d in Alpha8 <==> d in Order8
  {
  }

  lemma Alpha16Sorted()
    ensures forall i :: 0 <= i < |Alpha16| - 1 ==> LexLess(Alpha16[i], Alpha16[i + 1])
  {
  }

  lemma Alpha16Members()
    ensures Distinct(Alpha16)
    ensures forall d :: d in Alpha16 <==> d in Order16
  {
    Alpha16Distinct();
    Alpha16InOrder();
    Order16InAlpha();
  }

  lemma Alpha16Distinct()
    ensures Distinct(Alpha16)
  {
  }

  lemma Alpha16InOrder()
    ensures forall i :: 0 <= i < |Alpha16| ==> Alpha16[i] in Order16
  {
  }

  lemma Order16InAlpha()
    ensures forall i :: 0 <= i < |Order16| ==> Order16[i] in Alpha16
  {
  }

  /** The (direction, class) key of one observation, or none when its
      speed falls in no class (`groupby` drops NaN keys). */
  function KeyOf(rose: Rose, b: Bins, labels: seq<SpeedLabel>, o: Obs): (k: Option<Key>)
    requires b.Valid() && |labels| == b.ClassCount()
    ensures k.Some? <==> Cut(b, o.ff).Some?
    ensures k.Some? ==> k.value.0 == Classify(rose, o.ddd) && k.value.1 in labels
    ensures forall c: nat :: b.InClass(o.ff, c) ==> k == Some((Classify(rose, o.ddd), labels[c]))
  {
    match Cut(b, o.ff)
    case None =>
      assert forall c: nat :: !b.InClass(o.ff, c) by {
        forall c: nat { CutNoneInNoClass(b, o.ff, c); }
      }
      None
    case Some(c) =>
      assert forall c': nat :: b.InClass(o.ff, c') ==> c' == c by {
        forall c': nat | b.InClass(o.ff, c') { ClassUnique(b, o.ff, c, c'); }
      }
      Some((Classify(rose, o.ddd), labels[c]))
  }

  /** The keys of the counted observations, in observation order. */
  function Tag(rose: Rose, b: Bins, labels: seq<SpeedLabel>, obs: seq<Obs>): (tagged: seq<Key>)
    requires b.Valid() && |labels| == b.ClassCount()
    ensures forall i :: 0 <= i < |tagged| ==> tagged[i].0 in Order(rose) && tagged[i].1 in labels
  {
    if obs == [] then []
    else
      var rest := Tag(rose, b, labels, obs[1..]);
      match KeyOf(rose, b, labels, obs[0])
      case None => rest
      case Some(k) => [k] + rest
  }

  /** How many observations fall in some class. */
  function Counted(b: Bins, obs: seq<Obs>): nat
    requires b.Valid()
  {
    if obs == [] then 0
    else (if Cut(b, obs[0].ff).Some? then 1 else 0) + Counted(b, obs[1..])
  }

  /** How many observations have a bearing classified as `k.0` and a speed
      in the class labelled `k.1`. */
  function CountKey(rose: Rose, b: Bins, labels: seq<SpeedLabel>, obs: seq<Obs>, k: Key): nat
    requires b.Valid() && |labels| == b.ClassCount()
  {
    if obs == [] then 0
    else
      var c := Cut(b, obs[0].ff);
      var hit := Classify(rose, obs[0].ddd) == k.0 && c.Some? && labels[c.value] == k.1;
      (if hit then 1 else 0) + CountKey(rose, b, labels, obs[1..], k)
  }

  lemma {:induction false} TagSize(rose: Rose, b: Bins, labels: seq<SpeedLabel>, obs: seq<Obs>)
    requires b.Valid() && |labels| == b.ClassCount()
    ensures |Tag(rose, b, labels, obs)| == Counted(b, obs)
  {
    if obs != [] {
      TagSize(rose, b, labels, obs[1..]);
    }
  }

  /** Each key occurs in the tagged list as often as observations have it. */
  lemma {:induction false} TagCount(rose: Rose, b: Bins, labels: seq<SpeedLabel>, obs: seq<Obs>, k: Key)
    requires b.Valid() && |labels| == b.ClassCount()
    ensures multiset(Tag(rose, b, labels, obs))[k] == CountKey(rose, b, labels, obs, k)
  {
    if obs != [] {
      TagCount(rose, b, labels, obs[1..], k);
      var rest := Tag(rose, b, labels, obs[1..]);
      match KeyOf(rose, b, labels, obs[0])
      case None =>
      case Some(j) =>
        assert multiset([j] + rest) == multiset{j} + multiset(rest);
    }
  }

  /** How a script adds the placeholder rows: a loop over the names that
      checks the growing table, or one concatenation. */
  datatype Filling = Loop | Concat

  function Fill(t: Table, candidates: seq<string>, ph: SpeedLabel, how: Filling): (r: Table)
    ensures |t| <= |r| && r[..|t|] == t
    ensures forall i :: |t| <= i < |r| ==>
              && r[i].dir !in Dirs(t) && r[i].dir in candidates
              && r[i].ff == ph && r[i].freq == 0
  {
    match how
    case Loop => ZeroFill(t, candidates, ph)
    case Concat => ZeroFillConcat(t, candidates, ph)
  }

  lemma FillCovers(t: Table, candidates: seq<string>, ph: SpeedLabel, how: Filling)
    ensures forall d :: d in candidates ==> d in Dirs(Fill(t, candidates, ph, how))
  {
    if how == Loop {
      ZeroFillCovers(t, candidates, ph);
    }
  }

  /** The placeholder rows come after the grouped rows, so every grouped
      key survives the fill. */
  lemma FillKeptKeys(t: Table, candidates: seq<string>, ph: SpeedLabel, how: Filling)
    ensures forall k :: k in Keys(t) ==> k in Keys(Fill(t, candidates, ph, how))
  {
    var r := Fill(t, candidates, ph, how);
    forall k | k in Keys(t)
      ensures k in Keys(r)
    {
      var p :| 0 <= p < |t| && Keys(t)[p] == k;
      assert r[p] == r[..|t|][p];
      assert Keys(r)[p] == k;
    }
  }

  /** Placeholder rows never repeat a key: each names a direction the
      grouped table lacks, and no direction twice (the loop checks the
      growing table; the concatenation does so when no name is listed
      twice). */
  lemma FillKeys(t: Table, candidates: seq<string>, ph: SpeedLabel, how: Filling)
    ensures forall k :: k in Keys(t) ==> k in Keys(Fill(t, candidates, ph, how))
    ensures Distinct(Keys(t)) && (how == Loop || Distinct(candidates)) ==>
              Distinct(Keys(Fill(t, candidates, ph, how)))
  {
    FillKeptKeys(t, candidates, ph, how);
    if Distinct(Keys(t)) && (how == Loop || Distinct(candidates)) {
      var r := Fill(t, candidates, ph, how);
      ZeroFillAppendsOnce(t, candidates, ph);
      if how == Concat {
        ZeroFillAgrees(t, candidates, ph);
      }
      assert r == ZeroFill(t, candidates, ph);
      assert forall i :: 0 <= i < |t| ==> r[i] == r[..|t|][i];
      forall i, j | 0 <= i < j < |r|
        ensures Keys(r)[i] != Keys(r)[j]
      {
        if j < |t| {
          assert Keys(t)[i] != Keys(t)[j];
        } else if i < |t| {
          assert Dirs(t)[i] == r[i].dir;
        }
      }
    }
  }

  lemma FillTotal(t: Table, candidates: seq<string>, ph: SpeedLabel, how: Filling)
    ensures Total(Fill(t, candidates, ph, how)) == Total(t)
  {
    var r := Fill(t, candidates, ph, how);
    assert r == r[..|t|] + r[|t|..];
    TotalAppend(r[..|t|], r[|t|..]);
    TotalZero(r[|t|..]);
  }

  /** Requirements on the classes every script meets. */
  predicate Classes(b: Bins, labels: seq<SpeedLabel>) {
    b.Valid() && |labels| == b.ClassCount() && Distinct(labels)
  }

  /** The grouped counts before any placeholder row. */
  function Grouped(rose: Rose, b: Bins, labels: seq<SpeedLabel>, obs: seq<Obs>): (t: Table)
    requires Classes(b, labels)
    ensures forall i :: 0 <= i < |t| ==> t[i].dir in Order(rose)
    ensures forall i :: 0 <= i < |t| ==>
              t[i].freq == CountKey(rose, b, labels, obs, (t[i].dir, t[i].ff))
    ensures forall k :: CountKey(rose, b, labels, obs, k) > 0 ==> k in Keys(t) && k.0 in Dirs(t)
    ensures Distinct(Keys(t))
    ensures Total(t) == Counted(b, obs)
  {
    var tagged := Tag(rose, b, labels, obs);
    var t := GroupCount(tagged, GroupOrder(rose), labels);
    GroupedFacts(rose, b, labels, obs, tagged, t);
    t
  }

  lemma GroupedFacts(rose: Rose, b: Bins, labels: seq<SpeedLabel>, obs: seq<Obs>, tagged: seq<Key>, t: Table)
    requires Classes(b, labels)
    requires tagged == Tag(rose, b, labels, obs)
    requires forall i :: 0 <= i < |t| ==> 0 < t[i].freq == multiset(tagged)[(t[i].dir, t[i].ff)]
    requires forall k :: k in Keys(t) <==> k in tagged
    requires Total(t) == |tagged|
    ensures forall i :: 0 <= i < |t| ==> t[i].dir in Order(rose)
    ensures forall i :: 0 <= i < |t| ==>
              t[i].freq == CountKey(rose, b, labels, obs, (t[i].dir, t[i].ff))
    ensures forall k :: CountKey(rose, b, labels, obs, k) > 0 ==> k in Keys(t) && k.0 in Dirs(t)
    ensures Total(t) == Counted(b, obs)
  {
    TagSize(rose, b, labels, obs);
    forall i | 0 <= i < |t|
      ensures t[i].dir in Order(rose)
      ensures t[i].freq == CountKey(rose, b, labels, obs, (t[i].dir, t[i].ff))
    {
      assert Keys(t)[i] in tagged;
      TagCount(rose, b, labels, obs, (t[i].dir, t[i].ff));
    }
    forall k | CountKey(rose, b, labels, obs, k) > 0
      ensures k in Keys(t) && k.0 in Dirs(t)
    {
      TagCount(rose, b, labels, obs, k);
      assert k in Keys(t);
      var p :| 0 <= p < |t| && Keys(t)[p] == k;
      assert Dirs(t)[p] == k.0;
    }
  }

  /** Placeholder rows only ever name candidates. */
  lemma FillKnown(rose: Rose, t: Table, candidates: seq<string>, ph: SpeedLabel, how: Filling)
    requires forall i :: 0 <= i < |t| ==> t[i].dir in Order(rose)
    requires forall c :: c in candidates ==> c in Order(rose)
    ensures var r := Fill(t, candidates, ph, how);
            forall i :: 0 <= i < |r| ==> r[i].dir in Order(rose)
  {
    var r := Fill(t, candidates, ph, how);
    forall i | 0 <= i < |r|
      ensures r[i].dir in Order(rose)
    {
      if i < |t| {
        assert r[i] == r[..|t|][i];
      }
    }
  }

  /** The grouped counts with the placeholder rows added: every row holds
      the number of observations with its direction and class, and the
      total is the number of counted observations. */
  function Filled(rose: Rose, b: Bins, labels: seq<SpeedLabel>, obs: seq<Obs>,
                  candidates: seq<string>, ph: SpeedLabel, how: Filling): (t: Table)
    requires Classes(b, labels)
    requires forall c :: c in candidates ==> c in Order(rose)
    ensures forall i :: 0 <= i < |t| ==> t[i].dir in Order(rose)
    ensures forall d :: d in candidates ==> d in Dirs(t)
    ensures forall i :: 0 <= i < |t| ==>
              t[i].freq == CountKey(rose, b, labels, obs, (t[i].dir, t[i].ff))
    ensures forall k :: CountKey(rose, b, labels, obs, k) > 0 ==> k in Keys(t)
    ensures how == Loop || Distinct(candidates) ==> Distinct(Keys(t))
    ensures Total(t) == Counted(b, obs)
  {
    var grouped := Grouped(rose, b, labels, obs);
    FillKnown(rose, grouped, candidates, ph, how);
    FillCovers(grouped, candidates, ph, how);
    FillTotal(grouped, candidates, ph, how);
    FillCounts(rose, b, labels, obs, grouped, candidates, ph, how);
    FillKeys(grouped, candidates, ph, how);
    Fill(grouped, candidates, ph, how)
  }

  lemma FillCounts(rose: Rose, b: Bins, labels: seq<SpeedLabel>, obs: seq<Obs>, grouped: Table,
                   candidates: seq<string>, ph: SpeedLabel, how: Filling)
    requires Classes(b, labels)
    requires forall i :: 0 <= i < |grouped| ==>
               grouped[i].freq == CountKey(rose, b, labels, obs, (grouped[i].dir, grouped[i].ff))
    requires forall k :: CountKey(rose, b, labels, obs, k) > 0 ==> k.0 in Dirs(grouped)
    ensures var r := Fill(grouped, candidates, ph, how);
            forall i :: 0 <= i < |r| ==> r[i].freq == CountKey(rose, b, labels, obs, (r[i].dir, r[i].ff))
  {
    var r := Fill(grouped, candidates, ph, how);
    forall i | 0 <= i < |r|
      ensures r[i].freq == CountKey(rose, b, labels, obs, (r[i].dir, r[i].ff))
    {
      if i < |grouped| {
        assert r[i] == r[..|grouped|][i];
      }
    }
  }

  /** Group, fill and sort: the steps the three scripts share. */
  function Tabulate(rose: Rose, b: Bins, labels: seq<SpeedLabel>, obs: seq<Obs>,
                    candidates: seq<string>, ph: SpeedLabel, how: Filling, s: Sorting): (r: Result<Table, Error>)
    requires Classes(b, labels)
    requires forall c :: c in candidates ==> c in Order(rose)
    ensures r.Success?
  {
    Arrange(rose, Filled(rose, b, labels, obs, candidates, ph, how), s)
  }

  /** Every candidate name has a row in the final table, and its total is
      the number of observations some class holds. */
  lemma TabulateShape(rose: Rose, b: Bins, labels: seq<SpeedLabel>, obs: seq<Obs>,
                      candidates: seq<string>, ph: SpeedLabel, how: Filling, s: Sorting)
    requires Classes(b, labels)
    requires forall c :: c in candidates ==> c in Order(rose)
    ensures var v := Tabulate(rose, b, labels, obs, candidates, ph, how, s).value;
            && (forall d :: d in candidates ==> d in Dirs(v))
            && Total(v) == Counted(b, obs)
  {
    var filled := Filled(rose, b, labels, obs, candidates, ph, how);
    ArrangeKeeps(rose, filled, s);
    var v := Arrange(rose, filled, s).value;
    forall d | d in candidates
      ensures d in Dirs(v)
    {
      assert d in multiset(Dirs(filled));
    }
  }

  /** With whole rows sorted, every row's count is the number of
      observations with that row's direction and class: for grouped rows
      by construction, for placeholder rows because no observation has
      their direction at all. */
  lemma TabulateCounts(rose: Rose, b: Bins, labels: seq<SpeedLabel>, obs: seq<Obs>,
                       candidates: seq<string>, ph: SpeedLabel, how: Filling)
    requires Classes(b, labels)
    requires forall c :: c in candidates ==> c in Order(rose)
    ensures var v := Tabulate(rose, b, labels, obs, candidates, ph, how, WholeRows).value;
            && (forall i :: 0 <= i < |v| ==> v[i].freq == CountKey(rose, b, labels, obs, (v[i].dir, v[i].ff)))
            && (forall k :: CountKey(rose, b, labels, obs, k) > 0 ==> k in Keys(v))
            && (how == Loop || Distinct(candidates) ==> Distinct(Keys(v)))
  {
    CountsSurviveSort(rose, b, labels, obs, Filled(rose, b, labels, obs, candidates, ph, how));
  }

  /** Sorting whole rows only moves rows, so a table whose every row holds
      its key's count still does afterwards. */
  lemma CountsSurviveSort(rose: Rose, b: Bins, labels: seq<SpeedLabel>, obs: seq<Obs>, t: Table)
    requires Classes(b, labels)
    requires Arrange(rose, t, WholeRows).Success?
    requires forall i :: 0 <= i < |t| ==> t[i].freq == CountKey(rose, b, labels, obs, (t[i].dir, t[i].ff))
    requires forall k :: CountKey(rose, b, labels, obs, k) > 0 ==> k in Keys(t)
    ensures var v := Arrange(rose, t, WholeRows).value;
            && (forall i :: 0 <= i < |v| ==> v[i].freq == CountKey(rose, b, labels, obs, (v[i].dir, v[i].ff)))
            && (forall k :: CountKey(rose, b, labels, obs, k) > 0 ==> k in Keys(v))
            && (Distinct(Keys(t)) ==> Distinct(Keys(v)))
  {
    var v := Arrange(rose, t, WholeRows).value;
    KeysPerm(t, v);
    forall i | 0 <= i < |v|
      ensures v[i].freq == CountKey(rose, b, labels, obs, (v[i].dir, v[i].ff))
    {
      assert v[i] in multiset(t);
    }
  }

  /** `df['ddd']` and `df['ff']` of a frame with no missing cell: a
      missing or repeated `ddd` is reported first, then `ff`. */
  function Extract(g: Frame): (r: Result<seq<Obs>, Error>)
    requires Rectangular(g) && forall i :: 0 <= i < |g.rows| ==> Complete(g.rows[i])
    ensures r.Failure? <==> ColumnIndex(g.columns, "ddd").Failure? || ColumnIndex(g.columns, "ff").Failure?
    ensures r.Failure? ==> r.error == (if ColumnIndex(g.columns, "ddd").Failure?
                                       then ColumnIndex(g.columns, "ddd").error
                                       else ColumnIndex(g.columns, "ff").error)
    ensures r.Success? ==>
              var di, fi := ColumnIndex(g.columns, "ddd").value, ColumnIndex(g.columns, "ff").value;
              && |r.value| == |g.rows|
              && forall i :: 0 <= i < |g.rows| ==>
                   Some(r.value[i].ddd) == g.rows[i][di] && Some(r.value[i].ff) == g.rows[i][fi]
  {
    var di :- ColumnIndex(g.columns, "ddd");
    var fi :- ColumnIndex(g.columns, "ff");
    Success(Observations(g, di, fi))
  }

  function Speeds(obs: seq<Obs>): (v: seq<real>)
    ensures |v| == |obs| && forall i :: 0 <= i < |obs| ==> v[i] == obs[i].ff
  {
    seq(|obs|, i requires 0 <= i < |obs| => obs[i].ff)
  }

  /** How many observations have a speed above `m`. */
  function Above(obs: seq<Obs>, m: real): nat {
    if obs == [] then 0 else (if obs[0].ff > m then 1 else 0) + Above(obs[1..], m)
  }

  /** `CountKey` with the fixed knot classes. */
  function CountFixed(rose: Rose, obs: seq<Obs>, k: Key): nat {
    FixedBinsShape(0.0);
    CountKey(rose, FixedBins, FixedLabels, obs, k)
  }

  /** With the fixed classes exactly the positive speeds are counted. */
  lemma {:induction false} CountedFixed(obs: seq<Obs>)
    ensures FixedBins.Valid() && Counted(FixedBins, obs) == Above(obs, 0.0)
  {
    FixedBinsShape(0.0);
    if obs != [] {
      FixedBinsShape(obs[0].ff);
      CountedFixed(obs[1..]);
    }
  }

  /** With the dynamic classes exactly the speeds above the smallest one
      are counted. */
  lemma {:induction false} CountedDynamic(speeds: seq<real>, obs: seq<Obs>)
    requires DynamicBins(speeds).Success?
    requires forall i :: 0 <= i < |obs| ==> obs[i].ff in speeds
    ensures Counted(DynamicBins(speeds).value.0, obs) == Above(obs, Min(speeds))
  {
    if obs != [] {
      DynamicCounted(speeds, obs[0].ff);
      CountedDynamic(speeds, obs[1..]);
    }
  }

  // ---------------------------------------------------------------
  // windrose_master.py

  /** Whether `df['ddd']` of a sheet names exactly one column. */
  predicate HasDirections(f: Frame) {
    ColumnIndex(f.columns, "ddd").Success?
  }

  /** Whether both `ddd` and `ff` name exactly one column. */
  predicate HasColumns(f: Frame) {
    HasDirections(f) && ColumnIndex(f.columns, "ff").Success?
  }

  /** One sheet of windrose_master.py: 16 points, the fixed knot classes,
      placeholder rows for the 16 names under `0-5 knot`. */
  function MasterSheetTable(f: Frame, s: Sorting): (r: Result<Table, Error>)
    requires Rectangular(f)
    ensures r.Failure? <==> !HasColumns(f)
  {
    var obs :- Extract(DropNa(f));
    FixedBinsShape(0.0);
    Tabulate(Sixteen, FixedBins, FixedLabels, obs, Order(Sixteen), FixedLabels[0], Loop, s)
  }

  /** Every one of the 16 names has a row, and the table counts exactly
      the observations with a positive speed. */
  lemma MasterSheetTableShape(f: Frame, s: Sorting)
    requires Rectangular(f) && HasColumns(f)
    ensures MasterSheetTable(f, s).Success?
    ensures forall d :: d in Order(Sixteen) ==> d in Dirs(MasterSheetTable(f, s).value)
    ensures Total(MasterSheetTable(f, s).value) == Above(Extract(DropNa(f)).value, 0.0)
  {
    var obs := Extract(DropNa(f)).value;
    FixedBinsShape(0.0);
    TabulateShape(Sixteen, FixedBins, FixedLabels, obs, Order(Sixteen), FixedLabels[0], Loop, s);
    CountedFixed(obs);
  }

  /** With whole rows sorted, each row holds the number of observations
      of its direction and class. */
  lemma MasterSheetTableCounts(f: Frame)
    requires Rectangular(f) && HasColumns(f)
    ensures MasterSheetTable(f, WholeRows).Success?
    ensures var v := MasterSheetTable(f, WholeRows).value;
            var obs := Extract(DropNa(f)).value;
            && (forall i :: 0 <= i < |v| ==> v[i].freq == CountFixed(Sixteen, obs, (v[i].dir, v[i].ff)))
            && (forall k :: CountFixed(Sixteen, obs, k) > 0 ==> k in Keys(v))
            && Distinct(Keys(v))
  {
    FixedBinsShape(0.0);
    TabulateCounts(Sixteen, FixedBins, FixedLabels, Extract(DropNa(f)).value, Order(Sixteen), FixedLabels[0], Loop);
  }

  /** A sheet as `pd.read_excel` gives it: every row as wide as the header. */
  type Sheet = f: Frame | Rectangular(f) witness Frame([], [])

  /** The names of the sheets. */
  function SheetNames(sheets: seq<(string, Sheet)>): (ns: set<string>)
    ensures forall i :: 0 <= i < |sheets| ==> sheets[i].0 in ns
  {
    if sheets == [] then {}
    else
      var init := sheets[..|sheets| - 1];
      assert forall i :: 0 <= i < |init| ==> init[i] == sheets[i];
      SheetNames(init) + {sheets[|sheets| - 1].0}
  }

  /** A name is a sheet name exactly when some sheet carries it. */
  lemma {:induction false} SheetNamesMembers(sheets: seq<(string, Sheet)>)
    ensures forall n :: n in SheetNames(sheets) <==> exists i :: 0 <= i < |sheets| && sheets[i].0 == n
  {
    if sheets != [] {
      var init := sheets[..|sheets| - 1];
      SheetNamesMembers(init);
      assert forall i :: 0 <= i < |init| ==> init[i] == sheets[i];
    }
  }

  /** A loop over the sheets in workbook order that builds one table per
      sheet with `build`, stops at the first failure, and stores each table
      under its sheet's name (a later sheet of the same name replacing an
      earlier one). */
  function Collect(sheets: seq<(string, Sheet)>, build: Sheet -> Result<Table, Error>): (r: Result<map<string, Table>, Error>)
    ensures r.Failure? <==> exists i :: 0 <= i < |sheets| && build(sheets[i].1).Failure?
    ensures r.Failure? ==> exists i :: 0 <= i < |sheets| && build(sheets[i].1).Failure?
                                       && r.error == build(sheets[i].1).error
                                       && forall j :: 0 <= j < i ==> build(sheets[j].1).Success?
    ensures r.Success? ==> r.value.Keys == SheetNames(sheets)
  {
    if sheets == [] then Success(map[])
    else
      var last := |sheets| - 1;
      var init := sheets[..last];
      assert forall i :: 0 <= i < last ==> init[i] == sheets[i];
      var rest :- Collect(init, build);
      var t :- build(sheets[last].1);
      Success(rest[sheets[last].0 := t])
  }

  /** A sheet's table is the one kept under its name unless a later sheet
      has the same name. */
  lemma {:induction false} CollectLatest(sheets: seq<(string, Sheet)>, build: Sheet -> Result<Table, Error>, i: nat)
    requires Collect(sheets, build).Success? && i < |sheets|
    requires forall j :: i < j < |sheets| ==> sheets[j].0 != sheets[i].0
    ensures build(sheets[i].1).Success?
    ensures Collect(sheets, build).value[sheets[i].0] == build(sheets[i].1).value
  {
    var last := |sheets| - 1;
    var init := sheets[..last];
    assert forall j :: 0 <= j < last ==> init[j] == sheets[j];
    if i < last {
      CollectLatest(init, build, i);
    }
  }

  /** The position of the first sheet (in workbook order) whose `ddd`
      lookup fails, if any. */
  function FirstWithoutDirections(sheets: seq<(string, Sheet)>): (k: Option<nat>)
    ensures k.None? <==> forall i :: 0 <= i < |sheets| ==> HasDirections(sheets[i].1)
    ensures k.Some? ==> k.value < |sheets| && !HasDirections(sheets[k.value].1)
    ensures k.Some? ==> forall j :: 0 <= j < k.value ==> HasDirections(sheets[j].1)
  {
    if sheets == [] then None
    else if !HasDirections(sheets[0].1) then Some(0)
    else
      match FirstWithoutDirections(sheets[1..])
      case None => None
      case Some(k) => Some(k + 1)
  }

  /** windrose_master.py's `calculate_wind_frequency`: first every sheet's
      directions (a failing `ddd` lookup in any sheet stops everything
      before any count), then every sheet's table. Any exception ends the
      routine without a result. */
  function MasterTables(sheets: seq<(string, Sheet)>, s: Sorting): (r: Result<map<string, Table>, Error>)
    ensures r.Failure? <==> exists i :: 0 <= i < |sheets| && !HasColumns(sheets[i].1)
    ensures FirstWithoutDirections(sheets).Some? ==>
              r == Failure(ColumnIndex(sheets[FirstWithoutDirections(sheets).value].1.columns, "ddd").error)
    ensures r.Success? ==> r.value.Keys == SheetNames(sheets)
  {
    match FirstWithoutDirections(sheets)
    case Some(k) => Failure(ColumnIndex(sheets[k].1.columns, "ddd").error)
    case None => Collect(sheets, (f: Sheet) => MasterSheetTable(f, s))
  }

  /** With distinct sheet names, each month's table is that sheet's table. */
  lemma MasterTablesLatest(sheets: seq<(string, Sheet)>, s: Sorting, i: nat)
    requires MasterTables(sheets, s).Success? && i < |sheets|
    requires forall j :: i < j < |sheets| ==> sheets[j].0 != sheets[i].0
    ensures HasColumns(sheets[i].1)
    ensures MasterTables(sheets, s).value[sheets[i].0] == MasterSheetTable(sheets[i].1, s).value
  {
    CollectLatest(sheets, (f: Sheet) => MasterSheetTable(f, s), i);
  }

  // ---------------------------------------------------------------
  // create_windrose.py

  /** create_windrose.py: 16 points, five classes from the speed range,
      placeholder rows under the first class for each name of the
      17-entry list (`N` twice). */
  function CreateWindroseTable(f: Frame, s: Sorting): (r: Result<Table, Error>)
    requires Rectangular(f)
    ensures Extract(DropNa(f)).Failure? ==> r == Failure(Extract(DropNa(f)).error)
    ensures Extract(DropNa(f)).Success? ==>
              (r.Failure? <==> DynamicBins(Speeds(Extract(DropNa(f)).value)).Failure?)
    ensures r.Failure? && Extract(DropNa(f)).Success? ==> r.error == DynamicBins(Speeds(Extract(DropNa(f)).value)).error
  {
    var obs :- Extract(DropNa(f));
    var classes :- DynamicBins(Speeds(obs));
    var b, labels := classes.0, classes.1;
    Tabulate(Sixteen, b, labels, obs, Names(Sixteen), labels[0], Loop, s)
  }

  /** `pd.cut` accepts the range classes: the speeds are not all equal, and
      no two of the five labels print alike (see `DynamicBins`). */
  predicate RangeClassesBuild(obs: seq<Obs>) {
    DynamicBins(Speeds(obs)).Success?
  }

  /** Two observations whose speeds differ by more than half a knot are
      enough for the range classes. */
  lemma WideSpeedsGiveBins(obs: seq<Obs>, i: nat, j: nat)
    requires i < |obs| && j < |obs| && obs[j].ff - obs[i].ff > 0.5
    ensures RangeClassesBuild(obs)
  {
    var sp := Speeds(obs);
    assert sp[i] == obs[i].ff && sp[j] == obs[j].ff;
    WideRangePrintsApart(sp);
  }

  /** Every name has a row (the repeated `N` adds nothing), and the table
      counts exactly the observations faster than the slowest one. */
  lemma CreateWindroseTableShape(f: Frame, s: Sorting)
    requires Rectangular(f) && HasColumns(f) && RangeClassesBuild(Extract(DropNa(f)).value)
    ensures CreateWindroseTable(f, s).Success?
    ensures var obs := Extract(DropNa(f)).value;
            && (forall d :: d in Order(Sixteen) ==> d in Dirs(CreateWindroseTable(f, s).value))
            && Total(CreateWindroseTable(f, s).value) == Above(obs, Min(Speeds(obs)))
  {
    var obs := Extract(DropNa(f)).value;
    CreateWindroseTableChain(f, s);
    var classes := DynamicBins(Speeds(obs)).value;
    var b, labels := classes.0, classes.1;
    TabulateShape(Sixteen, b, labels, obs, Names(Sixteen), labels[0], Loop, s);
    forall i | 0 <= i < |obs| ensures obs[i].ff in Speeds(obs) {
      assert Speeds(obs)[i] == obs[i].ff;
    }
    CountedDynamic(Speeds(obs), obs);
  }

  /** Bridge: when both columns are there and the range classes are built,
      the script's table is `Tabulate` over the 16 points and those classes. */
  lemma CreateWindroseTableChain(f: Frame, s: Sorting)
    requires Rectangular(f) && HasColumns(f) && RangeClassesBuild(Extract(DropNa(f)).value)
    ensures DynamicBins(Speeds(Extract(DropNa(f)).value)).Success?
    ensures var classes := DynamicBins(Speeds(Extract(DropNa(f)).value)).value;
            && Classes(classes.0, classes.1)
            && (forall c :: c in Names(Sixteen) ==> c in Order(Sixteen))
            && CreateWindroseTable(f, s)
               == Tabulate(Sixteen, classes.0, classes.1, Extract(DropNa(f)).value, Names(Sixteen), classes.1[0], Loop, s)
  {
    var obs := Extract(DropNa(f)).value;
    var classes := DynamicBins(Speeds(obs)).value;
    assert Classes(classes.0, classes.1);
  }

  /** With whole rows sorted, each row holds the number of observations
      of its direction and class. */
  lemma CreateWindroseTableCounts(f: Frame)
    requires Rectangular(f) && HasColumns(f) && RangeClassesBuild(Extract(DropNa(f)).value)
    ensures DynamicBins(Speeds(Extract(DropNa(f)).value)).Success? && CreateWindroseTable(f, WholeRows).Success?
    ensures var obs := Extract(DropNa(f)).value;
            var classes := DynamicBins(Speeds(obs)).value;
            var v := CreateWindroseTable(f, WholeRows).value;
            && (forall i :: 0 <= i < |v| ==> v[i].freq == CountKey(Sixteen, classes.0, classes.1, obs, (v[i].dir, v[i].ff)))
            && (forall k :: CountKey(Sixteen, classes.0, classes.1, obs, k) > 0 ==> k in Keys(v))
            && Distinct(Keys(v))
  {
    var obs := Extract(DropNa(f)).value;
    CreateWindroseTableChain(f, WholeRows);
    var classes := DynamicBins(Speeds(obs)).value;
    TabulateCounts(Sixteen, classes.0, classes.1, obs, Names(Sixteen), classes.1[0], Loop);
  }

  // ---------------------------------------------------------------
  // windy.py

  /** windy.py's `calculate_wind_frequency`: column names cut at their
      first dot, 8 points, the fixed knot classes, placeholder rows
      concatenated for unused names, and the percentage column. */
  function WindyTable(f: Frame, s: Sorting): (r: Result<(Table, Column), Error>)
    requires Rectangular(f)
    ensures var g := RenameBeforeDot(DropNa(f));
            r.Failure? <==> ColumnIndex(g.columns, "ddd").Failure? || ColumnIndex(g.columns, "ff").Failure?
    ensures r.Success? ==> r.value.1 == Percentages(r.value.0)
  {
    var obs :- Extract(RenameBeforeDot(DropNa(f)));
    FixedBinsShape(0.0);
    var t := Tabulate(Eight, FixedBins, FixedLabels, obs, Order(Eight), FixedLabels[0], Concat, s).value;
    Success((t, Percentages(t)))
  }

  /** Every one of the 8 names has a row, the table counts exactly the
      observations with a positive speed, and when there is one the
      percentages add up to 100. */
  lemma WindyTableShape(f: Frame, s: Sorting)
    requires Rectangular(f) && HasColumns(RenameBeforeDot(DropNa(f)))
    ensures WindyTable(f, s).Success?
    ensures var (t, pct) := WindyTable(f, s).value;
            var obs := Extract(RenameBeforeDot(DropNa(f))).value;
            && (forall d :: d in Order(Eight) ==> d in Dirs(t))
            && Total(t) == Above(obs, 0.0)
            && (Above(obs, 0.0) > 0 ==> pct.Values? && Sum(pct.values) == 100.0)
            && (Above(obs, 0.0) == 0 ==> pct == AllNaN(|t|))
  {
    var obs := Extract(RenameBeforeDot(DropNa(f))).value;
    WindyTableChain(f, s);
    TabulateShape(Eight, FixedBins, FixedLabels, obs, Order(Eight), FixedLabels[0], Concat, s);
    CountedFixed(obs);
    var t := Tabulate(Eight, FixedBins, FixedLabels, obs, Order(Eight), FixedLabels[0], Concat, s).value;
    if Total(t) > 0 {
      PercentagesSumTo100(t);
    }
  }

  /** When both columns are there after the renaming, the script's table is
      the shared chain over the 8 points and the knot classes, with the
      percentages of that table beside it. */
  lemma WindyTableChain(f: Frame, s: Sorting)
    requires Rectangular(f) && HasColumns(RenameBeforeDot(DropNa(f)))
    ensures Classes(FixedBins, FixedLabels)
    ensures var obs := Extract(RenameBeforeDot(DropNa(f))).value;
            var t := Tabulate(Eight, FixedBins, FixedLabels, obs, Order(Eight), FixedLabels[0], Concat, s).value;
            WindyTable(f, s) == Success((t, Percentages(t)))
  {
    FixedBinsShape(0.0);
  }

  /** With whole rows sorted, each row holds the number of observations
      of its direction and class. */
  lemma WindyTableCounts(f: Frame)
    requires Rectangular(f) && HasColumns(RenameBeforeDot(DropNa(f)))
    ensures WindyTable(f, WholeRows).Success?
    ensures var t := WindyTable(f, WholeRows).value.0;
            var obs := Extract(RenameBeforeDot(DropNa(f))).value;
            && (forall i :: 0 <= i < |t| ==> t[i].freq == CountFixed(Eight, obs, (t[i].dir, t[i].ff)))
            && (forall k :: CountFixed(Eight, obs, k) > 0 ==> k in Keys(t))
            && Distinct(Keys(t))
  {
    WindyTableChain(f, WholeRows);
    TabulateCounts(Eight, FixedBins, FixedLabels, Extract(RenameBeforeDot(DropNa(f))).value,
                   Order(Eight), FixedLabels[0], Concat);
  }
}
