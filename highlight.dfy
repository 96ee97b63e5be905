/** The highlight rule of the three bar charts: a bar is highlighted when its
    mean equals the largest mean of its chart, so tied maxima are all
    highlighted. */
module Highlight {
  import opened GroupMeans

  /** `['count'].max()` of a non-empty aggregate. */
  function MaxMean(agg: seq<GroupMean>): (top: real)
    requires |agg| > 0
    ensures forall i :: 0 <= i < |agg| ==> agg[i].mean <= top
    ensures exists i :: 0 <= i < |agg| && agg[i].mean == top
  {
    if |agg| == 1 then agg[0].mean
    else
      var rest := MaxMean(agg[1..]);
      assert forall i :: 1 <= i < |agg| ==> agg[i] == agg[1..][i - 1];
      if agg[0].mean >= rest then agg[0].mean else rest
  }

  /** One flag per bar: its mean equals the maximum. An empty aggregate
      gives no flags. */
  function Highlights(agg: seq<GroupMean>): (flags: seq<bool>)
  {
    if |agg| == 0 then []
    else seq(|agg|, i requires 0 <= i < |agg| => agg[i].mean == MaxMean(agg))
  }

  /** A bar is highlighted exactly when no bar has a larger mean. */
  predicate IsTop(agg: seq<GroupMean>, i: int)
    requires 0 <= i < |agg|
  {
    forall j :: 0 <= j < |agg| ==> agg[j].mean <= agg[i].mean
  }

  /** There is one flag per bar, and a bar is flagged exactly when its mean
      is the largest. */
  lemma HighlightMeaning(agg: seq<GroupMean>)
    ensures |Highlights(agg)| == |agg|
    ensures forall i :: 0 <= i < |agg| ==> (Highlights(agg)[i] <==> IsTop(agg, i))
  {
    if |agg| > 0 {
      var top := MaxMean(agg);
      forall i | 0 <= i < |agg|
        ensures Highlights(agg)[i] <==> IsTop(agg, i)
      {
        var j :| 0 <= j < |agg| && agg[j].mean == top;
        assert agg[j].mean <= agg[i].mean ==> agg[i].mean == top;
      }
    }
  }

  /** Ties all win: bars with equal means are flagged alike. */
  lemma TiesAllHighlighted(agg: seq<GroupMean>, i: int, j: int)
    requires 0 <= i < |agg| && 0 <= j < |agg| && agg[i].mean == agg[j].mean
    ensures Highlights(agg)[i] == Highlights(agg)[j]
  {
    HighlightMeaning(agg);
  }

  /** A non-empty chart highlights at least one bar. */
  lemma SomeBarHighlighted(agg: seq<GroupMean>)
    requires |agg| > 0
    ensures exists i :: 0 <= i < |agg| && Highlights(agg)[i]
  {
    var top := MaxMean(agg);
    var i :| 0 <= i < |agg| && agg[i].mean == top;
    assert Highlights(agg)[i];
  }

  /** Worked example: means 50, 50 and 30 highlight the first two bars. */
  lemma TieExample()
    ensures Highlights([GroupMean("A", 50.0), GroupMean("B", 50.0), GroupMean("C", 30.0)]) == [true, true, false]
  {
    var agg := [GroupMean("A", 50.0), GroupMean("B", 50.0), GroupMean("C", 30.0)];
    assert MaxMean(agg) == 50.0;
  }
}
