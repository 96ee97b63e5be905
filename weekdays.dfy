/** The two derived columns of the filtered view: `is_weekend`, from the day
    of the week of `date`, and `day_type`, its Weekend/Weekday label. Both are
    written into the view in place. */
module Weekdays {
  import opened Rows

  /** Day 0 (1970-01-01) was a Thursday; days of the week count Monday as 0. */
  const EpochDayOfWeek := 3

  /** `date.dt.dayofweek`: 0 for Monday up to 6 for Sunday. */
  function DayOfWeek(date: int): (w: int)
    ensures 0 <= w < 7
  {
    (date + EpochDayOfWeek) % 7
  }

  /** `dayofweek >= 5`: Saturday or Sunday. */
  predicate IsWeekendDate(date: int)
  {
    DayOfWeek(date) >= 5
  }

  /** Consecutive days have consecutive days of the week, Sunday wrapping to
      Monday. */
  lemma NextDayOfWeek(date: int)
    ensures DayOfWeek(date + 1) == if DayOfWeek(date) == 6 then 0 else DayOfWeek(date) + 1
  {
  }

  /** The week has period seven, so weekends repeat weekly. */
  lemma WeekendWeekly(date: int)
    ensures IsWeekendDate(date + 7) <==> IsWeekendDate(date)
  {
  }

  /** 2024-01-06, 2024-01-07 and 2024-01-08 are days 19728, 19729 and 19730:
      a Saturday, a Sunday and a Monday. */
  lemma WeekendExamples()
    ensures DayOfWeek(19728) == 5 && IsWeekendDate(19728)
    ensures DayOfWeek(19729) == 6 && IsWeekendDate(19729)
    ensures DayOfWeek(19730) == 0 && !IsWeekendDate(19730)
  {
  }

  /** The row with its `is_weekend` column set from the date. */
  function WithWeekendFlag(r: Row): Row
  {
    r.(isWeekend := Some(IsWeekendDate(r.date)))
  }

  /** The view after `create_day_orders_df`: every row flagged. */
  function WithWeekendFlags(s: seq<Row>): (t: seq<Row>)
    ensures |t| == |s|
  {
    seq(|s|, i requires 0 <= i < |s| => WithWeekendFlag(s[i]))
  }

  /** `create_day_orders_df`: writes the weekend column into every row of
      the view, in place. */
  method MarkWeekends(a: array<Row>)
    modifies a
    ensures a[..] == WithWeekendFlags(old(a[..]))
  {
    for i := 0 to a.Length
      invariant forall k :: 0 <= k < i ==> a[k] == WithWeekendFlag(old(a[k]))
      invariant forall k :: i <= k < a.Length ==> a[k] == old(a[k])
    {
      a[i] := WithWeekendFlag(a[i]);
    }
  }

  /** After flagging, the row count is unchanged, each row is flagged
      weekend exactly when its day of the week is 5 or 6, and every other
      column is as it was. */
  lemma WeekendFlagMeaning(s: seq<Row>, i: int)
    requires 0 <= i < |s|
    ensures |WithWeekendFlags(s)| == |s|
    ensures WithWeekendFlags(s)[i].isWeekend == Some(DayOfWeek(s[i].date) >= 5)
    ensures WithWeekendFlags(s)[i].(isWeekend := s[i].isWeekend) == s[i]
  {
  }

  /** The flag is a function of the date alone: rows with the same date get
      the same flag whatever their other columns. */
  lemma WeekendFlagDependsOnDateOnly(s: seq<Row>, i: int, j: int)
    requires 0 <= i < |s| && 0 <= j < |s| && s[i].date == s[j].date
    ensures WithWeekendFlags(s)[i].isWeekend == WithWeekendFlags(s)[j].isWeekend
  {
  }

  /** The label that replaces the flag: `True` becomes Weekend, `False`
      becomes Weekday. */
  function DayTypeLabel(isWeekend: bool): string
  {
    if isWeekend then "Weekend" else "Weekday"
  }

  /** Every flag gets exactly one of the two labels, Weekend exactly for a
      weekend. */
  lemma DayTypeLabelMeaning(isWeekend: bool)
    ensures DayTypeLabel(isWeekend) == "Weekend" <==> isWeekend
    ensures DayTypeLabel(isWeekend) == "Weekday" <==> !isWeekend
    ensures DayTypeLabel(isWeekend) == "Weekend" || DayTypeLabel(isWeekend) == "Weekday"
  {
  }

  predicate Flagged(s: seq<Row>)
  {
    forall i :: 0 <= i < |s| ==> s[i].isWeekend.Some?
  }

  function WithDayType(r: Row): Row
    requires r.isWeekend.Some?
  {
    r.(dayType := Some(DayTypeLabel(r.isWeekend.value)))
  }

  /** The view after the `day_type` column is added. */
  function WithDayTypes(s: seq<Row>): (t: seq<Row>)
    requires Flagged(s)
    ensures |t| == |s|
  {
    seq(|s|, i requires 0 <= i < |s| => WithDayType(s[i]))
  }

  /** Writes the `day_type` column, derived from `is_weekend`, into every row
      of the view, in place. */
  method AddDayTypes(a: array<Row>)
    requires Flagged(a[..])
    modifies a
    ensures a[..] == WithDayTypes(old(a[..]))
  {
    for i := 0 to a.Length
      invariant forall k :: 0 <= k < i ==> a[k] == WithDayType(old(a[k]))
      invariant forall k :: i <= k < a.Length ==> a[k] == old(a[k])
    {
      a[i] := WithDayType(a[i]);
    }
  }

  /** The view with both derived columns, as the dashboard builds it. */
  function Labelled(s: seq<Row>): (t: seq<Row>)
    ensures |t| == |s|
  {
    WithDayTypes(WithWeekendFlags(s))
  }

  /** In the labelled view every row is either Weekend or Weekday, Weekend
      exactly when its date is a Saturday or Sunday, and only the two derived
      columns differ from the input row. */
  lemma LabelledMeaning(s: seq<Row>, i: int)
    requires 0 <= i < |s|
    ensures Labelled(s)[i].dayType == Some("Weekend") || Labelled(s)[i].dayType == Some("Weekday")
    ensures Labelled(s)[i].dayType == Some("Weekend") <==> IsWeekendDate(s[i].date)
    ensures Labelled(s)[i].isWeekend == Some(IsWeekendDate(s[i].date))
    ensures Labelled(s)[i].(isWeekend := s[i].isWeekend, dayType := s[i].dayType) == s[i]
  {
    DayTypeLabelMeaning(IsWeekendDate(s[i].date));
  }
}
