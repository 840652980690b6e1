/** The exceptions the aggregation routine can raise, as values. */
module Errors {

  datatype Error =
    | MissingColumn(name: string)    // `KeyError` looking up a column that is absent
    | DuplicateColumn(name: string)  // a column name that selects several columns
    | UnknownDirection(name: string) // `ValueError` from `list.index` while sorting
    | BadBinEdges                    // `ValueError` from `pd.cut`: repeated edges (NaN edges count as equal)
    | DuplicateBinLabels             // `ValueError` from `pd.cut`: two labels print alike
    | MissingSheet(name: string)     // `KeyError` looking up a sheet's table
    | DuplicatePivotEntry            // `pivot` refusing a repeated (class, direction) pair
}
