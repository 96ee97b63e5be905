/** The rental table: one row per day of the pre-cleaned bike-sharing data set. */
module Rows {

  datatype Option<T> = None | Some(value: T)

  /** One row of the table.
      `date` is a day number counted from 1970-01-01 (day 0), so the date
      column is already parsed. `isWeekend` and `dayType` are the two columns
      the dashboard adds to the filtered view; `None` means the column has not
      been added (or holds no value) for this row. */
  datatype Row = Row(
    date: int,
    weather: string,
    season: string,
    count: nat,
    casual: nat,
    registered: nat,
    isWeekend: Option<bool>,
    dayType: Option<string>)

  /** A row of a data frame together with its index label. */
  datatype Entry = Entry(index: int, row: Row)

  /** The rows of a data frame, without their labels. */
  function RowsOf(s: seq<Entry>): (r: seq<Row>)
    ensures |r| == |s|
    ensures forall i :: 0 <= i < |s| ==> r[i] == s[i].row
  {
    seq(|s|, i requires 0 <= i < |s| => s[i].row)
  }

  /** Rows are in ascending date order. */
  predicate SortedByDate(s: seq<Row>)
  {
    forall i, j :: 0 <= i < j < |s| ==> s[i].date <= s[j].date
  }
}
