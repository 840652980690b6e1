/** The `percentage` column of windy.py: each row's count as a share of
    the table's total count. Float division by a zero total is made
    explicit: when every count is zero, every entry is `0/0`, i.e. NaN. */
module Percent {
  import opened Tally

  /** The column as a whole: all NaN (one per row), or one number per row. */
  datatype Column = AllNaN(rows: nat) | Values(values: seq<real>)

  /** `freq / total * 100` for a non-zero total. */
  function Share(freq: nat, total: nat): (p: real)
    requires total > 0
    ensures p * total as real == freq as real * 100.0
    ensures freq <= total ==> 0.0 <= p <= 100.0
  {
    freq as real / total as real * 100.0
  }

  /** Every row's share of a fixed non-zero `total`. */
  function Scale(t: Table, total: nat): (ps: seq<real>)
    requires total > 0
    ensures |ps| == |t|
    ensures forall i :: 0 <= i < |t| ==> ps[i] == Share(t[i].freq, total)
  {
    if t == [] then [] else [Share(t[0].freq, total)] + Scale(t[1..], total)
  }

  /** No row counts more than the whole table. */
  lemma {:induction false} FreqAtMostTotal(t: Table, i: nat)
    requires i < |t|
    ensures t[i].freq <= Total(t)
  {
    if i > 0 {
      FreqAtMostTotal(t[1..], i - 1);
    }
  }

  /** A zero total means every count is zero, so the column's NaNs all come
      from `0/0` and never from a positive count over zero. */
  lemma ZeroTotal(t: Table)
    requires Total(t) == 0
    ensures forall i :: 0 <= i < |t| ==> t[i].freq == 0
  {
    forall i | 0 <= i < |t| ensures t[i].freq == 0 {
      FreqAtMostTotal(t, i);
    }
  }

  /** `frequency / frequency.sum() * 100`: all NaN exactly when the total is
      zero; otherwise one entry per row, proportional to the row's count. */
  function Percentages(t: Table): (c: Column)
    ensures c.AllNaN? <==> Total(t) == 0
    ensures c.AllNaN? ==> c.rows == |t|
    ensures c.Values? ==> |c.values| == |t|
    ensures c.Values? ==> forall i :: 0 <= i < |t| ==>
              c.values[i] * Total(t) as real == t[i].freq as real * 100.0
  {
    if Total(t) == 0 then AllNaN(|t|) else Values(Scale(t, Total(t)))
  }

  /** Every percentage lies in [0, 100]. */
  lemma PercentagesBounded(t: Table, i: nat)
    requires Percentages(t).Values? && i < |t|
    ensures 0.0 <= Percentages(t).values[i] <= 100.0
  {
    FreqAtMostTotal(t, i);
    assert Percentages(t).values[i] == Share(t[i].freq, Total(t));
  }

  function Sum(xs: seq<real>): real {
    if xs == [] then 0.0 else xs[0] + Sum(xs[1..])
  }

  lemma {:induction false} ScaleSum(t: Table, total: nat)
    requires total > 0
    ensures Sum(Scale(t, total)) * total as real == Total(t) as real * 100.0
  {
    if t != [] {
      var ps := Scale(t, total);
      assert ps[1..] == Scale(t[1..], total);
      ScaleSum(t[1..], total);
      var s := Sum(ps[1..]);
      var n := total as real;
      assert Sum(ps) == ps[0] + s;
      assert (ps[0] + s) * n == ps[0] * n + s * n;
    }
  }

  /** The percentages of a table with a non-zero count add up to 100. */
  lemma PercentagesSumTo100(t: Table)
    requires Percentages(t).Values?
    ensures Sum(Percentages(t).values) == 100.0
  {
    var n := Total(t);
    assert Percentages(t).values == Scale(t, n);
    ScaleSum(t, n);
    var s := Sum(Scale(t, n));
    assert s * n as real == n as real * 100.0;
  }
}
