/** One pass of the dashboard script: from the loaded table and the selected
    date range to the three metrics and the three bar charts (key, mean,
    highlighted). */
module Dashboard {
  import opened Rows
  import opened RangeFilter
  import opened Weekdays
  import opened GroupMeans
  import opened Highlight
  import opened Totals

  /** One bar of a chart: the highlight flag stands for the orange colour. */
  datatype Bar = Bar(key: string, mean: real, highlighted: bool)

  /** The bars of an aggregate with their highlight flags. */
  function Chart(agg: seq<GroupMean>): (bars: seq<Bar>)
    ensures |bars| == |agg|
    ensures forall i :: 0 <= i < |agg| ==>
              && bars[i].key == agg[i].key
              && bars[i].mean == agg[i].mean
              && (bars[i].highlighted <==> IsTop(agg, i))
  {
    HighlightMeaning(agg);
    var flags := Highlights(agg);
    seq(|agg|, i requires 0 <= i < |agg| => Bar(agg[i].key, agg[i].mean, flags[i]))
  }

  /** Everything the script hands to the presentation layer. */
  datatype Summary = Summary(
    totalAll: nat,
    totalCasual: nat,
    totalRegistered: nat,
    season: seq<Bar>,
    weather: seq<Bar>,
    dayType: seq<Bar>)

  /** What the presentation layer receives for a filtered view. */
  function Summarize(view: seq<Row>): Summary
  {
    Summary(
      Total(view, AllRides), Total(view, CasualRides), Total(view, RegisteredRides),
      Chart(Aggregate(view, Season)), Chart(Aggregate(view, Weather)),
      Chart(Aggregate(Labelled(view), DayType)))
  }

  /** Flagging weekends leaves each metric's total as it was. */
  lemma {:induction false} TotalIgnoresWeekendFlags(s: seq<Row>, m: Metric)
    ensures Total(WithWeekendFlags(s), m) == Total(s, m)
  {
    if s != [] {
      var init := s[..|s| - 1];
      assert WithWeekendFlags(s)[..|s| - 1] == WithWeekendFlags(init);
      TotalIgnoresWeekendFlags(init, m);
    }
  }

  /** One pass of the script: filter the table to [start, end], add the
      weekend column to the view in place, group by season and weather, add
      the day-type column in place and group by it, and sum the three ride
      columns. */
  method Derive(table: seq<Entry>, start: int, end: int) returns (s: Summary)
    ensures s == Summarize(FilterRange(RowsOf(table), start, end))
  {
    var view := FilterRange(RowsOf(table), start, end);
    var a := new Row[|view|](i requires 0 <= i < |view| => view[i]);
    assert a[..] == view;
    MarkWeekends(a);
    var flagged := a[..];
    var weather := Aggregate(flagged, Weather);
    var season := Aggregate(flagged, Season);
    AggregateOnlyReadsKeyAndCount(flagged, view, Weather);
    AggregateOnlyReadsKeyAndCount(flagged, view, Season);
    var all, casual, registered := Total(flagged, AllRides), Total(flagged, CasualRides), Total(flagged, RegisteredRides);
    TotalIgnoresWeekendFlags(view, AllRides);
    TotalIgnoresWeekendFlags(view, CasualRides);
    TotalIgnoresWeekendFlags(view, RegisteredRides);
    AddDayTypes(a);
    var dayType := Aggregate(a[..], DayType);
    s := Summary(all, casual, registered, Chart(season), Chart(weather), Chart(dayType));
  }

  /** A list of distinct values drawn from S is no longer than S is large. */
  lemma {:induction false} DistinctWithin<T>(ks: seq<T>, S: set<T>)
    requires forall i, j :: 0 <= i < j < |ks| ==> ks[i] != ks[j]
    requires forall i :: 0 <= i < |ks| ==> ks[i] in S
    ensures |ks| <= |S|
  {
    if ks != [] {
      var e, init := ks[|ks| - 1], ks[..|ks| - 1];
      forall i | 0 <= i < |init|
        ensures init[i] in S - {e}
      {
        assert init[i] == ks[i];
      }
      DistinctWithin(init, S - {e});
    }
  }

  /** Every key of the day-type chart is one of the two labels. */
  lemma DayTypeKeysAreLabels(view: seq<Row>)
    ensures forall k :: k in KeysOf(Aggregate(Labelled(view), DayType)) ==> k == "Weekend" || k == "Weekday"
  {
    var lv := Labelled(view);
    AggregateMeaning(lv, DayType);
    forall k | k in KeysOf(Aggregate(lv, DayType))
      ensures k == "Weekend" || k == "Weekday"
    {
      var i :| InGroupAt(lv, DayType, k, i);
      LabelledMeaning(view, i);
    }
  }

  /** The Weekend bar is shown exactly when the view holds a Saturday or
      Sunday. */
  lemma WeekendBarIff(view: seq<Row>)
    ensures "Weekend" in KeysOf(Aggregate(Labelled(view), DayType)) <==>
              exists i :: 0 <= i < |view| && IsWeekendDate(view[i].date)
  {
    var lv := Labelled(view);
    AggregateMeaning(lv, DayType);
    if "Weekend" in KeysOf(Aggregate(lv, DayType)) {
      var i :| InGroupAt(lv, DayType, "Weekend", i);
      LabelledMeaning(view, i);
    }
    if exists i :: 0 <= i < |view| && IsWeekendDate(view[i].date) {
      var i :| 0 <= i < |view| && IsWeekendDate(view[i].date);
      LabelledMeaning(view, i);
      assert InGroupAt(lv, DayType, "Weekend", i);
    }
  }

  /** The Weekday bar is shown exactly when the view holds a day from Monday
      to Friday. */
  lemma WeekdayBarIff(view: seq<Row>)
    ensures "Weekday" in KeysOf(Aggregate(Labelled(view), DayType)) <==>
              exists i :: 0 <= i < |view| && !IsWeekendDate(view[i].date)
  {
    var lv := Labelled(view);
    AggregateMeaning(lv, DayType);
    if "Weekday" in KeysOf(Aggregate(lv, DayType)) {
      var i :| InGroupAt(lv, DayType, "Weekday", i);
      LabelledMeaning(view, i);
    }
    if exists i :: 0 <= i < |view| && !IsWeekendDate(view[i].date) {
      var i :| 0 <= i < |view| && !IsWeekendDate(view[i].date);
      LabelledMeaning(view, i);
      assert InGroupAt(lv, DayType, "Weekday", i);
    }
  }

  /** The day-type chart has at most the two bars Weekend and Weekday;
      Weekend appears exactly when the view holds a Saturday or Sunday, and
      Weekday exactly when it holds another day. */
  lemma DayTypeChartMeaning(view: seq<Row>)
    ensures |Aggregate(Labelled(view), DayType)| <= 2
    ensures forall k :: k in KeysOf(Aggregate(Labelled(view), DayType)) ==> k == "Weekend" || k == "Weekday"
    ensures "Weekend" in KeysOf(Aggregate(Labelled(view), DayType)) <==>
              exists i :: 0 <= i < |view| && IsWeekendDate(view[i].date)
    ensures "Weekday" in KeysOf(Aggregate(Labelled(view), DayType)) <==>
              exists i :: 0 <= i < |view| && !IsWeekendDate(view[i].date)
  {
    var ks := KeysOf(Aggregate(Labelled(view), DayType));
    AggregateMeaning(Labelled(view), DayType);
    DayTypeKeysAreLabels(view);
    var labels := {"Weekend", "Weekday"};
    assert "Weekend" != "Weekday";
    assert |labels| == 2;
    assert forall i :: 0 <= i < |ks| ==> ks[i] in ks;
    DistinctWithin(ks, labels);
    WeekendBarIff(view);
    WeekdayBarIff(view);
  }

  /** Season and weather are always present, so their groups cover every
      row of the view: their days add up to the view's length and their
      rides to the total rides metric. */
  lemma {:induction false} CategoryGroupsCoverView(view: seq<Row>, c: Column)
    requires c == Weather || c == Season
    ensures KeyedTotal(view, c, Days) == |view|
    ensures KeyedTotal(view, c, Rides) == Total(view, AllRides)
  {
    if view != [] {
      CategoryGroupsCoverView(view[..|view| - 1], c);
    }
  }

  /** Summed over the season or weather chart, group sizes give the number
      of days in the view and group rides give the total rides metric. */
  lemma ChartsAgreeWithTotals(view: seq<Row>, c: Column)
    requires c == Weather || c == Season
    ensures SumOverKeys(view, c, GroupKeys(view, c), Days) == |view|
    ensures SumOverKeys(view, c, GroupKeys(view, c), Rides) == Summarize(view).totalAll
  {
    GroupsPartitionRows(view, c, Days);
    GroupsPartitionRows(view, c, Rides);
    CategoryGroupsCoverView(view, c);
  }

  /** With the default selection, the table's own first and last dates, the
      dashboard summarises the whole table. */
  lemma DefaultSelectionShowsAll(table: seq<Entry>)
    requires table != []
    ensures var b := DateBounds(RowsOf(table)).value;
            FilterRange(RowsOf(table), b.0, b.1) == RowsOf(table)
  {
    DefaultRangeKeepsAll(RowsOf(table));
  }

  /** A range holding no dates (in particular start after end) gives zero
      metrics and empty charts, not an error. */
  lemma EmptyRangeGivesEmptySummary(table: seq<Entry>, start: int, end: int)
    requires forall i :: 0 <= i < |table| ==> !(start <= table[i].row.date <= end)
    ensures Summarize(FilterRange(RowsOf(table), start, end)) == Summary(0, 0, 0, [], [], [])
  {
    var rows := RowsOf(table);
    if FilterRange(rows, start, end) != [] {
      var r := FilterRange(rows, start, end)[0];
      FilterMembership(rows, start, end, r);
      assert false;
    }
    assert Labelled([]) == [];
  }
}
