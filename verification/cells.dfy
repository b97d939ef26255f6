/** Cell values of the accident table.

    A raw table, as the CSV reader hands it over, holds text or missing cells.
    The cleaning pipeline turns some of them into parsed times, numbers and
    ordered-categorical values. */
module Cells {

  datatype Option<+T> = None | Some(value: T)

  /** A wall-clock time of day, as produced by parsing `%H:%M:%S`. */
  datatype TimeOfDay = TimeOfDay(hour: nat, minute: nat, second: nat) {
    predicate Valid() {
      hour < 24 && minute < 60 && second < 60
    }
  }

  /** One cell of the table. `Missing` is the dataframe's NaN / NaT.
      `Category(name, rank)` is a value of an ordered categorical column:
      its category name and its position in the column's fixed category list. */
  datatype Cell =
    | Missing
    | Text(text: string)
    | Time(time: TimeOfDay)
    | Number(value: int)
    | Category(name: string, rank: nat)

  /** The string a cell compares equal to in `isin` against a list of
      strings: the text of a text cell, the label of a categorical one. */
  function Label(c: Cell): (r: Option<string>)
    ensures r.Some? <==> (c.Text? || c.Category?)
  {
    match c
    case Text(s) => Some(s)
    case Category(l, _) => Some(l)
    case _ => None
  }

  /** `series.isin(values)` for one cell: missing, numeric and time cells
      never match a list of strings. */
  predicate IsIn(c: Cell, values: set<string>)
  {
    Label(c).Some? && Label(c).value in values
  }
}
