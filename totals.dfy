/** The three headline metrics: column sums of `count`, `casual_users` and
    `registered_users` over the filtered view. */
module Totals {
  import opened Rows

  datatype Metric = AllRides | CasualRides | RegisteredRides

  function Value(r: Row, m: Metric): nat
  {
    match m
    case AllRides => r.count
    case CasualRides => r.casual
    case RegisteredRides => r.registered
  }

  /** `df[column].sum()`; 0 for an empty view. */
  function Total(rows: seq<Row>, m: Metric): nat
  {
    if rows == [] then 0 else Total(rows[..|rows| - 1], m) + Value(rows[|rows| - 1], m)
  }

  /** Summing is additive over a split of the view. */
  lemma {:induction false} TotalAppend(s: seq<Row>, t: seq<Row>, m: Metric)
    ensures Total(s + t, m) == Total(s, m) + Total(t, m)
    decreases |t|
  {
    if t != [] {
      var t' := t[..|t| - 1];
      assert (s + t)[..|s + t| - 1] == s + t';
      assert (s + t)[|s + t| - 1] == t[|t| - 1];
      TotalAppend(s, t', m);
    } else {
      assert s + t == s;
    }
  }

  /** Every row contributes: the total is at least each row's value and at
      most the row count times the largest value. */
  lemma {:induction false} TotalBounds(rows: seq<Row>, m: Metric, hi: nat)
    requires forall i :: 0 <= i < |rows| ==> Value(rows[i], m) <= hi
    ensures forall i :: 0 <= i < |rows| ==> Value(rows[i], m) <= Total(rows, m)
    ensures Total(rows, m) <= hi * |rows|
  {
    if rows != [] {
      var init := rows[..|rows| - 1];
      TotalBounds(init, m, hi);
      assert hi * (|init| + 1) == hi * |init| + hi;
      assert forall i :: 0 <= i < |init| ==> rows[i] == init[i];
    }
  }

  /** Where every row has count = casual + registered (the cleaning step's
      promise, which the dashboard does not check), the total rides are the
      casual plus the registered rides. */
  lemma {:induction false} TotalsConsistent(rows: seq<Row>)
    requires forall i :: 0 <= i < |rows| ==> rows[i].count == rows[i].casual + rows[i].registered
    ensures Total(rows, AllRides) == Total(rows, CasualRides) + Total(rows, RegisteredRides)
  {
    if rows != [] {
      var init := rows[..|rows| - 1];
      assert forall i :: 0 <= i < |init| ==> init[i] == rows[i];
      TotalsConsistent(init);
    }
  }
}
