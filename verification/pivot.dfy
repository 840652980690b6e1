/** `create_pivot_table` of windrose_master.py: one month's table reshaped
    into a grid with a row per speed class and a column per direction. */
module Pivoting {
  import opened Wrappers
  import opened Errors
  import opened Sequences
  import opened SpeedBins
  import opened Tally
  import WindFrequency

  /** The reshaped table: its row index (classes), its column index
      (directions) and one count per (direction, class) cell. */
  datatype PivotTable = PivotTable(classes: set<SpeedLabel>, directions: set<string>, cells: map<Key, nat>)

  function Classes(t: Table): (cs: set<SpeedLabel>)
    ensures forall c :: c in cs <==> exists i :: 0 <= i < |t| && t[i].ff == c
  {
    set i | 0 <= i < |t| :: t[i].ff
  }

  function Directions(t: Table): (ds: set<string>)
    ensures forall d :: d in ds <==> d in Dirs(t)
  {
    set i | 0 <= i < |t| :: t[i].dir
  }

  function Product(ds: set<string>, cs: set<SpeedLabel>): (p: set<Key>)
    ensures forall k :: k in p <==> k.0 in ds && k.1 in cs
  {
    set d, c | d in ds && c in cs :: (d, c)
  }

  /** The count of the first row with key `k`, 0 when there is none. */
  function Lookup(t: Table, k: Key): (n: nat)
    ensures k !in Keys(t) ==> n == 0
  {
    if t == [] then 0
    else if (t[0].dir, t[0].ff) == k then t[0].freq
    else
      assert forall j :: 0 <= j < |t| - 1 ==> Keys(t[1..])[j] == Keys(t)[j + 1];
      Lookup(t[1..], k)
  }

  /** With distinct keys, the lookup of a row's key finds that row. */
  lemma {:induction false} LookupRow(t: Table, i: nat)
    requires Distinct(Keys(t)) && i < |t|
    ensures Lookup(t, (t[i].dir, t[i].ff)) == t[i].freq
  {
    if i > 0 {
      assert Keys(t)[0] != Keys(t)[i];
      assert Distinct(Keys(t[1..])) by {
        forall p, q | 0 <= p < q < |t| - 1
          ensures Keys(t[1..])[p] != Keys(t[1..])[q]
        {
          assert Keys(t)[p + 1] != Keys(t)[q + 1];
        }
      }
      LookupRow(t[1..], i - 1);
    }
  }

  /** `.pivot(index='ff', columns='wind_direction', values='frequency')`
      then `.fillna(0)`: fails when two rows share a (direction, class)
      pair; otherwise every cell of the class-by-direction grid holds the
      count of the row with that pair, or 0 when no row has it. */
  function Pivot(t: Table): (r: Result<PivotTable, Error>)
    ensures r.Failure? <==> !Distinct(Keys(t))
    ensures r.Failure? ==> r.error == DuplicatePivotEntry
    ensures r.Success? ==>
              && r.value.classes == Classes(t)
              && r.value.directions == Directions(t)
              && r.value.cells.Keys == Product(Directions(t), Classes(t))
  {
    if !Distinct(Keys(t)) then Failure(DuplicatePivotEntry)
    else
      var grid := Product(Directions(t), Classes(t));
      Success(PivotTable(Classes(t), Directions(t), map k | k in grid :: Lookup(t, k)))
  }

  /** Reading the pivot back gives every row's count at its own cell and
      0 at every other cell of the grid. */
  lemma PivotCells(t: Table)
    requires Pivot(t).Success?
    ensures forall i :: 0 <= i < |t| ==> Pivot(t).value.cells[(t[i].dir, t[i].ff)] == t[i].freq
    ensures forall k :: k in Pivot(t).value.cells && k !in Keys(t) ==> Pivot(t).value.cells[k] == 0
  {
    var cells := Pivot(t).value.cells;
    forall i | 0 <= i < |t|
      ensures cells[(t[i].dir, t[i].ff)] == t[i].freq
    {
      assert t[i].dir in Dirs(t);
      LookupRow(t, i);
    }
  }

  /** `data_frame[bulan]` followed by the pivot: a month with no table is
      a missing key. */
  function MonthPivot(tables: map<string, Table>, month: string): (r: Result<PivotTable, Error>)
    ensures month !in tables ==> r == Failure(MissingSheet(month))
    ensures month in tables ==> r == Pivot(tables[month])
  {
    if month !in tables then Failure(MissingSheet(month)) else Pivot(tables[month])
  }

  /** The month of a sheet looked up in windrose_master.py's tables: the
      pivot of the table built from the last sheet with that name. */
  lemma MonthPivotOfSheet(sheets: seq<(string, WindFrequency.Sheet)>, s: Sorting, i: nat)
    requires WindFrequency.MasterTables(sheets, s).Success? && i < |sheets|
    requires forall j :: i < j < |sheets| ==> sheets[j].0 != sheets[i].0
    ensures WindFrequency.MasterSheetTable(sheets[i].1, s).Success?
    ensures MonthPivot(WindFrequency.MasterTables(sheets, s).value, sheets[i].0)
            == Pivot(WindFrequency.MasterSheetTable(sheets[i].1, s).value)
  {
    WindFrequency.MasterTablesLatest(sheets, s, i);
  }

  /** A name no sheet carries is a missing key. */
  lemma MonthPivotNoSheet(sheets: seq<(string, WindFrequency.Sheet)>, s: Sorting, month: string)
    requires WindFrequency.MasterTables(sheets, s).Success?
    requires forall i :: 0 <= i < |sheets| ==> sheets[i].0 != month
    ensures MonthPivot(WindFrequency.MasterTables(sheets, s).value, month) == Failure(MissingSheet(month))
  {
    WindFrequency.SheetNamesMembers(sheets);
  }
}
