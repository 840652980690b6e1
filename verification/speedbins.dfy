/** Speed classes: `pd.cut` with right-closed intervals and no
    `include_lowest`, over either the fixed knot bins or six equally spaced
    edges between the smallest and largest observed speed
    (`np.linspace(min, max, num=6)`). */
module SpeedBins {
  import opened Wrappers
  import opened Errors
  import opened Sequences
  import opened Compass

  /** A speed class's label: a fixed text, or the interval a dynamic label
      names; `Printed` gives the latter's one-decimal text. */
  datatype SpeedLabel = Knot(text: string) | Span(lo: real, hi: real)

  /** Bin edges for `pd.cut`; `openTop` adds a last edge at infinity. */
  datatype Bins = Bins(edges: seq<real>, openTop: bool) {

    predicate Valid() {
      && |edges| >= 2
      && forall i, j :: 0 <= i < j < |edges| ==> edges[i] < edges[j]
    }

    function ClassCount(): nat
      requires Valid()
    {
      |edges| - 1 + (if openTop then 1 else 0)
    }

    /** Class `i` is the interval (edges[i], edges[i+1]], the last one
        unbounded above when `openTop` holds. */
    predicate InClass(x: real, i: nat)
      requires Valid()
    {
      && i < ClassCount()
      && edges[i] < x
      && (i + 1 < |edges| ==> x <= edges[i + 1])
    }
  }

  /** Classes are disjoint. */
  lemma ClassUnique(b: Bins, x: real, i: nat, j: nat)
    requires b.Valid() && b.InClass(x, i) && b.InClass(x, j)
    ensures i == j
  {
  }

  function FindClass(b: Bins, x: real, i: nat): (c: Option<nat>)
    requires b.Valid() && i < |b.edges| && b.edges[i] < x
    ensures c.Some? ==> b.InClass(x, c.value)
    ensures c.None? ==> !b.openTop && x > b.edges[|b.edges| - 1]
    decreases |b.edges| - i
  {
    if i + 1 == |b.edges| then
      if b.openTop then Some(i) else None
    else if x > b.edges[i + 1] then FindClass(b, x, i + 1)
    else Some(i)
  }

  /** `pd.cut` of one value: the class whose interval holds it, or none
      (NaN) for a value at or below the lowest edge or above a finite top. */
  function Cut(b: Bins, x: real): (c: Option<nat>)
    requires b.Valid()
    ensures c.Some? ==> b.InClass(x, c.value)
    ensures c.None? <==> x <= b.edges[0] || (!b.openTop && x > b.edges[|b.edges| - 1])
  {
    if x <= b.edges[0] then None else FindClass(b, x, 0)
  }

  /** A value the cut leaves out lies in no class. */
  lemma CutNoneInNoClass(b: Bins, x: real, i: nat)
    requires b.Valid() && Cut(b, x).None?
    ensures !b.InClass(x, i)
  {
  }

  const FixedBins: Bins := Bins([0.0, 5.0, 10.0, 15.0, 20.0, 25.0], true)

  const FixedLabels: seq<SpeedLabel> :=
    [Knot("0-5 knot"), Knot("6-10 knot"), Knot("11-15 knot"),
     Knot("16-20 knot"), Knot("20-25 knot"), Knot(">25 knot")]

  /** The fixed bins are well formed, one label per class, and only a
      positive speed is counted. */
  lemma FixedBinsShape(x: real)
    ensures FixedBins.Valid() && FixedBins.ClassCount() == |FixedLabels| == 6
    ensures Distinct(FixedLabels)
    ensures Cut(FixedBins, x).Some? <==> x > 0.0
  {
  }

  /** `np.linspace(lo, hi, num=6)`: the last edge is `hi` itself. */
  function LinSpace(lo: real, hi: real): (e: seq<real>)
    ensures |e| == 6 && e[0] == lo && e[5] == hi
    ensures forall i :: 0 <= i < 5 ==> e[i + 1] - e[i] == (hi - lo) / 5.0
  {
    var w := (hi - lo) / 5.0;
    [lo, lo + w, lo + 2.0 * w, lo + 3.0 * w, lo + 4.0 * w, hi]
  }

  /** One label per consecutive pair of edges. */
  function SpanLabels(e: seq<real>): (ls: seq<SpeedLabel>)
    requires |e| >= 1
    ensures |ls| == |e| - 1
    ensures forall i :: 0 <= i < |ls| ==> ls[i] == Span(e[i], e[i + 1])
  {
    seq(|e| - 1, i requires 0 <= i < |e| - 1 => Span(e[i], e[i + 1]))
  }

  function Min(s: seq<real>): (m: real)
    requires |s| > 0
    ensures m in s && forall i :: 0 <= i < |s| ==> m <= s[i]
  {
    if |s| == 1 then s[0]
    else
      var m := Min(s[1..]);
      assert m in s;
      if s[0] <= m then s[0] else m
  }

  function Max(s: seq<real>): (m: real)
    requires |s| > 0
    ensures m in s && forall i :: 0 <= i < |s| ==> s[i] <= m
  {
    if |s| == 1 then s[0]
    else
      var m := Max(s[1..]);
      assert m in s;
      if s[0] >= m then s[0] else m
  }

  /** The text `f'{x:.1f}'` gives an edge: its sign and its magnitude in
      tenths, rounded half to even. A negative value that rounds to zero
      still prints `-0.0`, so the sign is kept apart from the digits. */
  datatype Decimal1 = Decimal1(negative: bool, tenths: nat)

  function Print1(x: real): (p: Decimal1)
    ensures p.negative <==> x < 0.0
    ensures Abs(x) * 10.0 - 0.5 <= p.tenths as real <= Abs(x) * 10.0 + 0.5
  {
    Decimal1(x < 0.0, RoundHalfEven(Abs(x) * 10.0))
  }

  /** The text of a dynamic label `f'{lo:.1f}-{hi:.1f}'`: two labels print
      alike exactly when both of their edges do. */
  function Printed(l: SpeedLabel): (Decimal1, Decimal1)
    requires l.Span?
  {
    (Print1(l.lo), Print1(l.hi))
  }

  /** No two of the labels that `SpanLabels(e)` gives print alike. */
  predicate PrintApart(e: seq<real>)
    requires |e| >= 1
  {
    forall i, j :: 0 <= i < j < |e| - 1 ==> Printed(SpanLabels(e)[i]) != Printed(SpanLabels(e)[j])
  }

  /** The dynamic classes of create_windrose.py: five right-closed
      intervals between the smallest and largest speed, labelled by their
      edges. With no speeds the edges are NaN, and with one distinct speed
      they coincide; either way `pd.cut` finds repeated edges (NaN edges
      count as equal) and raises ValueError. Otherwise, since `pd.cut`
      orders its categories, it raises ValueError when two labels print
      alike, as they do for a narrow speed range. */
  function DynamicBins(speeds: seq<real>): (r: Result<(Bins, seq<SpeedLabel>), Error>)
    ensures r.Failure? <==>
              |speeds| == 0 || Min(speeds) == Max(speeds) || !PrintApart(LinSpace(Min(speeds), Max(speeds)))
    ensures r.Failure? ==>
              r.error == if |speeds| == 0 || Min(speeds) == Max(speeds) then BadBinEdges else DuplicateBinLabels
    ensures r.Success? ==>
      var (b, ls) := r.value;
      && b.Valid() && !b.openTop && b.ClassCount() == |ls| == 5
      && b.edges[0] == Min(speeds) && b.edges[5] == Max(speeds)
      && (forall i :: 0 <= i < 5 ==> b.edges[i + 1] - b.edges[i] == (Max(speeds) - Min(speeds)) / 5.0)
      && (forall i :: 0 <= i < 5 ==> ls[i] == Span(b.edges[i], b.edges[i + 1]))
      && Distinct(ls)
  {
    if |speeds| == 0 || Min(speeds) == Max(speeds) then Failure(BadBinEdges)
    else
      var e := LinSpace(Min(speeds), Max(speeds));
      if !PrintApart(e) then Failure(DuplicateBinLabels)
      else
        LinSpaceIncreasing(Min(speeds), Max(speeds));
        SpanLabelsNameClasses(Bins(e, false));
        Success((Bins(e, false), SpanLabels(e)))
  }

  /** Edges more than a tenth apart print differently. */
  lemma Print1Apart(x: real, y: real)
    requires y - x > 0.1
    ensures Print1(x) != Print1(y)
  {
    if x < 0.0 && y < 0.0 {
      assert Abs(x) - Abs(y) > 0.1;
    } else if x >= 0.0 && y >= 0.0 {
      assert Abs(y) - Abs(x) > 0.1;
    }
  }

  /** A speed range wider than half a knot makes every step wider than a
      tenth, so the labels print apart and the classes are built. */
  lemma WideRangePrintsApart(speeds: seq<real>)
    requires |speeds| > 0 && Max(speeds) - Min(speeds) > 0.5
    ensures DynamicBins(speeds).Success?
  {
    WideStepsPrintApart(Min(speeds), Max(speeds));
  }

  lemma WideStepsPrintApart(lo: real, hi: real)
    requires hi - lo > 0.5
    ensures PrintApart(LinSpace(lo, hi))
  {
    var e := LinSpace(lo, hi);
    var w := (hi - lo) / 5.0;
    assert w > 0.1;
    LinSpaceIncreasing(lo, hi);
    forall i, j | 0 <= i < j < |e| - 1
      ensures Printed(SpanLabels(e)[i]) != Printed(SpanLabels(e)[j])
    {
      assert e[i + 1] - e[i] == w;
      assert e[i + 1] <= e[j];
      Print1Apart(e[i], e[j]);
    }
  }

  /** Speeds 0.0 and 0.1 give the edges 0, .02, .04, .06, .08 and .1: the
      first two labels both print `0.0-0.0`, and `pd.cut` refuses them. */
  lemma NarrowRangeRepeatsLabels()
    ensures DynamicBins([0.0, 0.1]) == Failure(DuplicateBinLabels)
  {
    var e := LinSpace(0.0, 0.1);
    assert e[0] == 0.0 && e[1] == 0.02 && e[2] == 0.04;
    assert Print1(0.0) == Print1(0.02) == Print1(0.04) == Decimal1(false, 0) by {
      RoundHalfEvenUnique(0.0, 0);
      RoundHalfEvenUnique(0.2, 0);
      RoundHalfEvenUnique(0.4, 0);
    }
    assert Printed(SpanLabels(e)[0]) == Printed(SpanLabels(e)[1]);
  }

  lemma LinSpaceIncreasing(lo: real, hi: real)
    requires lo < hi
    ensures Bins(LinSpace(lo, hi), false).Valid()
  {
    var e := LinSpace(lo, hi);
    assert forall i :: 0 <= i < 5 ==> e[i] < e[i + 1];
    Increasing(e);
  }

  lemma {:induction false} Increasing(e: seq<real>)
    requires forall i :: 0 <= i < |e| - 1 ==> e[i] < e[i + 1]
    ensures forall i, j :: 0 <= i < j < |e| ==> e[i] < e[j]
    decreases |e|
  {
    if |e| > 1 {
      var t := e[1..];
      assert forall i :: 0 <= i < |t| - 1 ==> t[i] < t[i + 1] by {
        forall i | 0 <= i < |t| - 1 ensures t[i] < t[i + 1] {
          assert t[i] == e[i + 1] && t[i + 1] == e[i + 2];
        }
      }
      Increasing(t);
      forall i, j | 0 <= i < j < |e| ensures e[i] < e[j] {
        if i > 0 {
          assert e[i] == t[i - 1] && e[j] == t[j - 1];
        } else if j > 1 {
          assert e[j] == t[j - 1] && e[1] == t[0];
        }
      }
    }
  }

  /** Over bins with a finite top, label `i` names exactly the interval of
      class `i`, and strictly increasing edges make the labels pairwise
      different. */
  lemma SpanLabelsNameClasses(b: Bins)
    requires b.Valid() && !b.openTop
    ensures |SpanLabels(b.edges)| == b.ClassCount()
    ensures forall x: real, i: nat :: i < b.ClassCount() ==>
              (b.InClass(x, i) <==> SpanLabels(b.edges)[i].lo < x <= SpanLabels(b.edges)[i].hi)
    ensures Distinct(SpanLabels(b.edges))
  {
    var ls := SpanLabels(b.edges);
    forall i, j | 0 <= i < j < |ls|
      ensures ls[i] != ls[j]
    {
      assert ls[i].lo == b.edges[i] < b.edges[j] == ls[j].lo;
    }
  }

  /** With dynamic bins a speed is counted exactly when it lies strictly
      above the minimum: the minimum itself falls outside every class. */
  lemma DynamicCounted(speeds: seq<real>, x: real)
    requires DynamicBins(speeds).Success?
    requires x in speeds
    ensures Cut(DynamicBins(speeds).value.0, x).Some? <==> x > Min(speeds)
    ensures Cut(DynamicBins(speeds).value.0, Min(speeds)).None?
  {
  }
}
