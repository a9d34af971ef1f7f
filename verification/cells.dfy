/** A table cell that may hold pandas' missing value (NaN for float columns,
    NA for the nullable `Int64` dtype). */
module Cells {

  datatype Cell<+T> = NaN | Num(value: T)

}
