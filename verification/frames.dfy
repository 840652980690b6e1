/** The already-parsed spreadsheet the routine receives: named columns and
    rows of cells, a cell being `None` where pandas holds NaN. Covers
    `dropna`, column lookup by name, and windy.py's column renaming. */
module Frames {
  import opened Wrappers
  import opened Errors
  import Ordering

  datatype Frame = Frame(columns: seq<string>, rows: seq<seq<Option<real>>>)

  predicate Rectangular(f: Frame) {
    forall i :: 0 <= i < |f.rows| ==> |f.rows[i]| == |f.columns|
  }

  predicate Complete(row: seq<Option<real>>) {
    forall j :: 0 <= j < |row| ==> row[j].Some?
  }

  function CompleteRows(rows: seq<seq<Option<real>>>): (kept: seq<seq<Option<real>>>)
    ensures |kept| <= |rows|
    ensures forall i :: 0 <= i < |kept| ==> Complete(kept[i]) && kept[i] in rows
    ensures forall i :: 0 <= i < |rows| && Complete(rows[i]) ==> rows[i] in kept
    ensures forall r :: multiset(kept)[r] == if Complete(r) then multiset(rows)[r] else 0
  {
    if rows == [] then []
    else
      var rest := CompleteRows(rows[1..]);
      var kept := if Complete(rows[0]) then [rows[0]] + rest else rest;
      CompleteRowsStep(rows, rest, kept);
      kept
  }

  lemma CompleteRowsStep(rows: seq<seq<Option<real>>>, rest: seq<seq<Option<real>>>, kept: seq<seq<Option<real>>>)
    requires rows != []
    requires forall i :: 0 <= i < |rest| ==> Complete(rest[i])
    requires forall r :: multiset(rest)[r] == if Complete(r) then multiset(rows[1..])[r] else 0
    requires kept == if Complete(rows[0]) then [rows[0]] + rest else rest
    ensures forall i :: 0 <= i < |kept| ==> Complete(kept[i]) && kept[i] in rows
    ensures forall i :: 0 <= i < |rows| && Complete(rows[i]) ==> rows[i] in kept
    ensures forall r :: multiset(kept)[r] == if Complete(r) then multiset(rows)[r] else 0
  {
    assert rows == [rows[0]] + rows[1..];
    forall i | 0 <= i < |kept| ensures kept[i] in rows {
      assert multiset(kept)[kept[i]] > 0;
    }
    forall i | 0 <= i < |rows| && Complete(rows[i]) ensures rows[i] in kept {
      assert multiset(rows)[rows[i]] > 0;
    }
  }

  /** Filtering commutes with concatenation, so the kept rows keep their
      relative order: together with CompleteRowsOne this pins the result. */
  lemma {:induction false} CompleteRowsConcat(a: seq<seq<Option<real>>>, b: seq<seq<Option<real>>>)
    ensures CompleteRows(a + b) == CompleteRows(a) + CompleteRows(b)
  {
    if a == [] {
      assert a + b == b;
    } else {
      var ab := a + b;
      assert ab[0] == a[0];
      assert ab[1..] == a[1..] + b;
      CompleteRowsConcat(a[1..], b);
    }
  }

  /** A single row is kept exactly when it is complete. */
  lemma CompleteRowsOne(r: seq<Option<real>>)
    ensures CompleteRows([r]) == if Complete(r) then [r] else []
  {
    assert [r][1..] == [];
  }

  /** `DataFrame.dropna()`: a row with a missing cell in ANY column is
      dropped; complete rows are kept in order. */
  function DropNa(f: Frame): (g: Frame)
    ensures g.columns == f.columns
    ensures |g.rows| <= |f.rows|
    ensures forall i :: 0 <= i < |g.rows| ==> Complete(g.rows[i]) && g.rows[i] in f.rows
    ensures forall i :: 0 <= i < |f.rows| && Complete(f.rows[i]) ==> f.rows[i] in g.rows
    ensures forall r :: multiset(g.rows)[r] == if Complete(r) then multiset(f.rows)[r] else 0
    ensures Rectangular(f) ==> Rectangular(g)
  {
    Frame(f.columns, CompleteRows(f.rows))
  }

  /** windy.py's `col.split('.')[0]`: the part of a column name before its
      first dot, which strips pandas' `.1`, `.2` suffixes of repeated
      headers. */
  function BeforeDot(name: string): (r: string)
    ensures '.' !in r
    ensures |r| <= |name| && r == name[..|r|]
    ensures '.' in name ==> |r| < |name| && name[|r|] == '.'
    ensures '.' !in name ==> r == name
  {
    if name == [] then []
    else if name[0] == '.' then []
    else [name[0]] + BeforeDot(name[1..])
  }

  function RenameBeforeDot(f: Frame): (g: Frame)
    ensures g.rows == f.rows && |g.columns| == |f.columns|
    ensures forall i :: 0 <= i < |f.columns| ==> g.columns[i] == BeforeDot(f.columns[i])
  {
    Frame(seq(|f.columns|, i requires 0 <= i < |f.columns| => BeforeDot(f.columns[i])), f.rows)
  }

  function Occurrences(s: seq<string>, x: string): (n: nat)
    ensures n == 0 <==> x !in s
    ensures n <= |s|
  {
    if s == [] then 0 else (if s[0] == x then 1 else 0) + Occurrences(s[1..], x)
  }

  lemma {:induction false} TwoOccurrences(s: seq<string>, x: string, i: nat, j: nat)
    requires i < j < |s| && s[i] == x && s[j] == x
    ensures Occurrences(s, x) >= 2
  {
    if i > 0 {
      TwoOccurrences(s[1..], x, i - 1, j - 1);
    } else {
      assert s[1..][j - 1] == x;
    }
  }

  /** `df[name]` for a single column: a `KeyError` when no column has the
      name, and a frame rather than a column (which the routine cannot
      use) when several do. */
  function ColumnIndex(columns: seq<string>, name: string): (r: Result<nat, Error>)
    ensures r.Success? <==> Occurrences(columns, name) == 1
    ensures r.Success? ==> r.value < |columns| && columns[r.value] == name
                           && forall j :: 0 <= j < |columns| && j != r.value ==> columns[j] != name
    ensures r == Failure(MissingColumn(name)) <==> name !in columns
    ensures r == Failure(DuplicateColumn(name)) <==>
              exists i, j :: 0 <= i < j < |columns| && columns[i] == name && columns[j] == name
  {
    var n := Occurrences(columns, name);
    if n == 0 then Failure(MissingColumn(name))
    else if n > 1 then
      assert exists i, j :: 0 <= i < j < |columns| && columns[i] == name && columns[j] == name by {
        DuplicateWitness(columns, name);
      }
      Failure(DuplicateColumn(name))
    else
      var i := Ordering.Rank(columns, name);
      assert forall j :: 0 <= j < |columns| && j != i ==> columns[j] != name by {
        forall j | 0 <= j < |columns| && j != i && columns[j] == name
          ensures false
        {
          TwoOccurrences(columns, name, i, j);
        }
      }
      Success(i)
  }

  lemma {:induction false} DuplicateWitness(s: seq<string>, x: string)
    requires Occurrences(s, x) > 1
    ensures exists i, j :: 0 <= i < j < |s| && s[i] == x && s[j] == x
  {
    if s[0] == x {
      assert x in s[1..];
      var j :| 0 <= j < |s[1..]| && s[1..][j] == x;
      assert s[j + 1] == x;
    } else {
      DuplicateWitness(s[1..], x);
      var i, j :| 0 <= i < j < |s[1..]| && s[1..][i] == x && s[1..][j] == x;
      assert s[i + 1] == x && s[j + 1] == x;
    }
  }

  /** Looking a name up after cutting the headers at their first dot: it
      is missing when no header cuts to it, ambiguous when two do, and
      otherwise found at the one header that does. */
  lemma RenameLookup(f: Frame, x: string)
    ensures var r := ColumnIndex(RenameBeforeDot(f).columns, x);
            && (r == Failure(MissingColumn(x)) <==>
                  forall i :: 0 <= i < |f.columns| ==> BeforeDot(f.columns[i]) != x)
            && (r == Failure(DuplicateColumn(x)) <==>
                  exists i, j :: 0 <= i < j < |f.columns| && BeforeDot(f.columns[i]) == x && BeforeDot(f.columns[j]) == x)
            && (r.Success? ==>
                  && r.value < |f.columns| && BeforeDot(f.columns[r.value]) == x
                  && forall j :: 0 <= j < |f.columns| && j != r.value ==> BeforeDot(f.columns[j]) != x)
  {
    var g := RenameBeforeDot(f).columns;
    LookupPointwise(f.columns, g, x);
  }

  /** The lookup facts, for any list `g` holding the cut headers. */
  lemma LookupPointwise(columns: seq<string>, g: seq<string>, x: string)
    requires |g| == |columns| && forall i :: 0 <= i < |g| ==> g[i] == BeforeDot(columns[i])
    ensures var r := ColumnIndex(g, x);
            && (r == Failure(MissingColumn(x)) <==>
                  forall i :: 0 <= i < |columns| ==> BeforeDot(columns[i]) != x)
            && (r == Failure(DuplicateColumn(x)) <==>
                  exists i, j :: 0 <= i < j < |columns| && BeforeDot(columns[i]) == x && BeforeDot(columns[j]) == x)
            && (r.Success? ==>
                  && r.value < |columns| && BeforeDot(columns[r.value]) == x
                  && forall j :: 0 <= j < |columns| && j != r.value ==> BeforeDot(columns[j]) != x)
  {
    assert x !in g <==> forall i :: 0 <= i < |columns| ==> BeforeDot(columns[i]) != x by {
      if x in g {
        var i :| 0 <= i < |g| && g[i] == x;
      }
    }
  }

  /** pandas renames a repeated header `ddd` to `ddd.1`; cutting at the dot
      brings the repeat back, and the lookup finds two columns. */
  lemma RenameRestoresRepeat()
    ensures var f := Frame(["ddd", "ff", "ddd.1"], []);
            ColumnIndex(RenameBeforeDot(f).columns, "ddd") == Failure(DuplicateColumn("ddd"))
  {
    var f := Frame(["ddd", "ff", "ddd.1"], []);
    var g := RenameBeforeDot(f).columns;
    assert g[0] == "ddd" && g[2] == "ddd" by {
      assert BeforeDot("ddd.1") == "ddd" by {
        assert "ddd.1"[1..][1..][1..] == ".1";
      }
    }
    assert 0 < 2 < |g|;
  }

  /** One observation: bearing `ddd` in degrees and speed `ff`. */
  datatype Obs = Obs(ddd: real, ff: real)

  /** The `ddd` and `ff` cells of every row of a frame with no missing
      cell. */
  function Observations(f: Frame, di: nat, fi: nat): (obs: seq<Obs>)
    requires Rectangular(f) && di < |f.columns| && fi < |f.columns|
    requires forall i :: 0 <= i < |f.rows| ==> Complete(f.rows[i])
    ensures |obs| == |f.rows|
    ensures forall i :: 0 <= i < |obs| ==>
              Some(obs[i].ddd) == f.rows[i][di] && Some(obs[i].ff) == f.rows[i][fi]
  {
    assert forall i :: 0 <= i < |f.rows| ==> f.rows[i][di].Some? && f.rows[i][fi].Some? by {
      forall i | 0 <= i < |f.rows|
        ensures f.rows[i][di].Some? && f.rows[i][fi].Some?
      {
        assert Complete(f.rows[i]);
      }
    }
    seq(|f.rows|, i requires 0 <= i < |f.rows| && f.rows[i][di].Some? && f.rows[i][fi].Some? =>
                  Obs(f.rows[i][di].value, f.rows[i][fi].value))
  }
}
