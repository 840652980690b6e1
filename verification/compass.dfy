/** The direction classifier: a bearing in degrees becomes a compass sector
    name. The bearing is reduced modulo 360, divided by the sector step,
    rounded half-to-even (numpy's `round`) and used as an index into a name
    list whose last entry repeats `N`, so that a bearing rounding up to a
    full turn lands on north again. */
module Compass {
  import opened Sequences

  /** The two compass roses of the source: 8 sectors of 45 degrees and
      16 sectors of 22.5 degrees. */
  datatype Rose = Eight | Sixteen {

    function Step(): real {
      if Eight? then 45.0 else 22.5
    }

    function Count(): nat {
      if Eight? then 8 else 16
    }
  }

  /** Canonical clockwise order starting at north. */
  const Order16: seq<string> :=
    ["N", "NNE", "NE", "ENE", "E", "ESE", "SE", "SSE",
     "S", "SSW", "SW", "WSW", "W", "WNW", "NW", "NNW"]

  const Order8: seq<string> := ["N", "NE", "E", "SE", "S", "SW", "W", "NW"]

  /** The classifier's lookup lists, with the trailing duplicate `N`. */
  const Names16: seq<string> :=
    ["N", "NNE", "NE", "ENE", "E", "ESE", "SE", "SSE",
     "S", "SSW", "SW", "WSW", "W", "WNW", "NW", "NNW", "N"]

  const Names8: seq<string> := ["N", "NE", "E", "SE", "S", "SW", "W", "NW", "N"]

  function Order(rose: Rose): (o: seq<string>)
    ensures |o| == rose.Count()
    ensures Distinct(o)
    ensures o[0] == "N"
  {
    if rose.Eight? then Order8 else Order16
  }

  /** The classifier's list is the canonical order plus a repeated first
      entry: index `Count()` is not a further sector but north again. */
  function Names(rose: Rose): (ns: seq<string>)
    ensures ns == Order(rose) + [Order(rose)[0]]
    ensures forall c :: c in ns ==> c in Order(rose)
  {
    if rose.Eight? then Names8 else Names16
  }

  lemma StepTimesCount(rose: Rose)
    ensures rose.Step() * rose.Count() as real == 360.0
  {
  }

  predicate IsWhole(x: real) {
    x == x.Floor as real
  }

  /** Python's float `%` with a positive divisor: the result lies in
      [0, 360) and differs from the input by a whole number of turns. */
  function Mod360(d: real): (r: real)
    ensures 0.0 <= r < 360.0
    ensures IsWhole((d - r) / 360.0)
  {
    d - 360.0 * (d / 360.0).Floor as real
  }

  /** numpy's `round` to zero decimals: nearest integer, and on an exact
      half the even neighbour. */
  function RoundHalfEven(x: real): (r: int)
    ensures x - 0.5 <= r as real <= x + 0.5
    ensures (r as real == x - 0.5 || r as real == x + 0.5) ==> r % 2 == 0
  {
    var f := x.Floor;
    var frac := x - f as real;
    if frac < 0.5 then f
    else if frac > 0.5 then f + 1
    else if f % 2 == 0 then f
    else f + 1
  }

  /** The index into `Names(rose)` computed by the source. */
  function RawIndex(rose: Rose, d: real): (i: nat)
    ensures i <= rose.Count()
    ensures Abs(Mod360(d) - i as real * rose.Step()) <= rose.Step() / 2.0
    ensures Abs(Mod360(d) - i as real * rose.Step()) == rose.Step() / 2.0 ==> i % 2 == 0
  {
    StepTimesCount(rose);
    var i := RoundHalfEven(Mod360(d) / rose.Step());
    RoundedCentre(rose, Mod360(d), i);
    i
  }

  /** Rounding the bearing measured in steps picks a sector centre within
      half a step of it, the even one on a tie. */
  lemma RoundedCentre(rose: Rose, theta: real, i: int)
    requires i == RoundHalfEven(theta / rose.Step())
    ensures Abs(theta - i as real * rose.Step()) <= rose.Step() / 2.0
    ensures Abs(theta - i as real * rose.Step()) == rose.Step() / 2.0 ==> i % 2 == 0
  {
    if rose.Eight? {
      assert theta == (theta / 45.0) * 45.0;
    } else {
      assert theta == (theta / 22.5) * 22.5;
    }
  }

  /** `convert_to_wind_direction` for one bearing. */
  function Classify(rose: Rose, d: real): (name: string)
    ensures name in Order(rose)
  {
    Names(rose)[RawIndex(rose, d)]
  }

  /** The sector index in the canonical order: the raw index with the
      trailing duplicate folded back onto 0. */
  function SectorIndex(rose: Rose, d: real): (s: nat)
    ensures s < rose.Count()
    ensures Classify(rose, d) == Order(rose)[s]
  {
    var r := RawIndex(rose, d);
    var o := Order(rose);
    assert Names(rose)[r] == (o + [o[0]])[r];
    if r < rose.Count() then r else 0
  }

  /** Distance between two bearings in [0, 360) going the short way round. */
  function CircularDistance(a: real, b: real): (r: real)
    requires 0.0 <= a < 360.0 && 0.0 <= b < 360.0
    ensures 0.0 <= r <= 180.0
  {
    var diff := if a >= b then a - b else b - a;
    if diff <= 180.0 then diff else 360.0 - diff
  }

  /** Any integer within half a unit of `x`, taking the even one on an
      exact half, is the one `RoundHalfEven` returns: its contract pins the
      result down completely. */
  lemma RoundHalfEvenUnique(x: real, z: int)
    requires x - 0.5 <= z as real <= x + 0.5
    requires (z as real == x - 0.5 || z as real == x + 0.5) ==> z % 2 == 0
    ensures z == RoundHalfEven(x)
  {
  }

  lemma FloorUnique(x: real, n: int)
    requires n as real <= x < n as real + 1.0
    ensures x.Floor == n
  {
  }

  /** Reducing modulo 360 forgets whole turns. */
  lemma {:induction false} Mod360Periodic(d: real, k: int)
    ensures Mod360(d + 360.0 * k as real) == Mod360(d)
  {
    var y := d / 360.0;
    assert (d + 360.0 * k as real) / 360.0 == y + k as real;
    FloorUnique(y + k as real, y.Floor + k);
  }

  /** The classifier is periodic in 360 degrees. */
  lemma {:induction false} ClassifyPeriodic(rose: Rose, d: real, k: int)
    ensures Classify(rose, d + 360.0 * k as real) == Classify(rose, d)
    ensures SectorIndex(rose, d + 360.0 * k as real) == SectorIndex(rose, d)
  {
    Mod360Periodic(d, k);
  }

  function Abs(x: real): real {
    if x < 0.0 then -x else x
  }

  /** No integer is closer to `q` than one within half a unit of it. */
  lemma NearestInteger(q: real, r: int, m: int)
    requires Abs(q - r as real) <= 0.5
    ensures Abs(q - r as real) <= Abs(q - m as real)
  {
    if m > r {
      assert m as real >= r as real + 1.0;
    } else if m < r {
      assert m as real <= r as real - 1.0;
    }
  }

  /** The sector the classifier picks is a nearest one: no sector centre
      is closer to the (normalised) bearing, going the short way round,
      and the bearing is within half a step of the chosen centre. */
  lemma ClassifyNearest(rose: Rose, d: real, j: nat)
    requires j < rose.Count()
    ensures CircularDistance(Mod360(d), SectorIndex(rose, d) as real * rose.Step())
            <= rose.Step() / 2.0
    ensures CircularDistance(Mod360(d), SectorIndex(rose, d) as real * rose.Step())
            <= CircularDistance(Mod360(d), j as real * rose.Step())
  {
    if rose.Eight? {
      NearestOf8(d, j);
    } else {
      NearestOf16(d, j);
    }
  }

  lemma NearestOf8(d: real, j: nat)
    requires j < 8
    ensures CircularDistance(Mod360(d), SectorIndex(Eight, d) as real * 45.0) <= 22.5
    ensures CircularDistance(Mod360(d), SectorIndex(Eight, d) as real * 45.0)
            <= CircularDistance(Mod360(d), j as real * 45.0)
  {
    var q := Mod360(d) / 45.0;
    var r := RawIndex(Eight, d);
    assert r == RoundHalfEven(q);
    assert Mod360(d) == q * 45.0;
    // Every sector centre j lies a whole number m of steps away along
    // one of the two ways round: m = j, or j - 8, or j + 8.
    NearestInteger(q, r, j);
    NearestInteger(q, r, j - 8);
    NearestInteger(q, r, j + 8);
  }

  lemma NearestOf16(d: real, j: nat)
    requires j < 16
    ensures CircularDistance(Mod360(d), SectorIndex(Sixteen, d) as real * 22.5) <= 11.25
    ensures CircularDistance(Mod360(d), SectorIndex(Sixteen, d) as real * 22.5)
            <= CircularDistance(Mod360(d), j as real * 22.5)
  {
    var q := Mod360(d) / 22.5;
    var r := RawIndex(Sixteen, d);
    assert r == RoundHalfEven(q);
    assert Mod360(d) == q * 22.5;
    NearestInteger(q, r, j);
    NearestInteger(q, r, j - 16);
    NearestInteger(q, r, j + 16);
  }

  /** A bearing exactly half way between two sector centres goes to the
      even raw index; the raw index `Count()` is the repeated `N`. */
  lemma {:induction false} ClassifyTie(rose: Rose, d: real, k: nat)
    requires k < rose.Count()
    requires Mod360(d) == (k as real + 0.5) * rose.Step()
    ensures RawIndex(rose, d) == if k % 2 == 0 then k else k + 1
    ensures SectorIndex(rose, d) == if k % 2 == 0 then k else (k + 1) % rose.Count()
  {
    var q := Mod360(d) / rose.Step();
    assert q == k as real + 0.5;
    RoundHalfEvenUnique(q, if k % 2 == 0 then k else k + 1);
    SectorOfRaw(rose, d);
    FoldNorth(rose, k + 1);
  }

  lemma FoldNorth(rose: Rose, i: nat)
    requires i <= rose.Count()
    ensures i % rose.Count() == if i < rose.Count() then i else 0
  {
    if rose.Eight? {
      assert i % 8 == if i < 8 then i else 0;
    } else {
      assert i % 16 == if i < 16 then i else 0;
    }
  }

  lemma SectorOfRaw(rose: Rose, d: real)
    ensures SectorIndex(rose, d) == if RawIndex(rose, d) < rose.Count() then RawIndex(rose, d) else 0
  {
  }

  lemma {:induction false} ClassifyWrapsToNorth(rose: Rose, d: real)
    requires Mod360(d) > 360.0 - rose.Step() / 2.0
    ensures RawIndex(rose, d) == rose.Count()
    ensures SectorIndex(rose, d) == 0
    ensures Classify(rose, d) == "N"
  {
    var q := Mod360(d) / rose.Step();
    StepTimesCount(rose);
    assert q > rose.Count() as real - 0.5;
    RoundHalfEvenUnique(q, rose.Count());
  }

  lemma Mod360InRange(d: real)
    requires 0.0 <= d < 360.0
    ensures Mod360(d) == d
  {
    FloorUnique(d / 360.0, 0);
  }

  /** The worked tie cases of the 16-point rose. */
  lemma TieExamples16()
    ensures Classify(Sixteen, 11.25) == "N"
    ensures Classify(Sixteen, 22.5) == "NNE"
    ensures Classify(Sixteen, 33.75) == "NE"
    ensures RawIndex(Sixteen, 348.75) == 16 && Classify(Sixteen, 348.75) == "N"
  {
    Mod360InRange(11.25);
    ClassifyTie(Sixteen, 11.25, 0);
    Mod360InRange(33.75);
    ClassifyTie(Sixteen, 33.75, 1);
    Mod360InRange(348.75);
    ClassifyTie(Sixteen, 348.75, 15);
    Mod360InRange(22.5);
    RoundHalfEvenUnique(1.0, 1);
  }

  /** The worked tie cases of the 8-point rose, and a full turn. */
  lemma TieExamples8()
    ensures Classify(Eight, 22.5) == "N"
    ensures Classify(Eight, 67.5) == "E"
    ensures Classify(Eight, 0.0) == "N" && Classify(Eight, 360.0) == "N"
  {
    Mod360InRange(22.5);
    ClassifyTie(Eight, 22.5, 0);
    Mod360InRange(67.5);
    ClassifyTie(Eight, 67.5, 1);
    Mod360InRange(0.0);
    RoundHalfEvenUnique(0.0, 0);
    ClassifyPeriodic(Eight, 0.0, 1);
  }
}
