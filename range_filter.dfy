/** The date-range view: the rows whose date lies in [start, end], both ends
    included, and the table's own date bounds that the picker offers as
    default selection. */
module RangeFilter {
  import opened Rows

  predicate InRange(r: Row, start: int, end: int)
  {
    start <= r.date <= end
  }

  /** The boolean-mask selection `start <= date <= end`, in table order. */
  function FilterRange(rows: seq<Row>, start: int, end: int): (view: seq<Row>)
    ensures |view| <= |rows|
  {
    if rows == [] then []
    else if InRange(rows[0], start, end) then [rows[0]] + FilterRange(rows[1..], start, end)
    else FilterRange(rows[1..], start, end)
  }

  /** A row is in the view exactly when it is in the table and its date is
      within the range, inclusive at both ends. */
  lemma {:induction false} FilterMembership(rows: seq<Row>, start: int, end: int, r: Row)
    ensures r in FilterRange(rows, start, end) <==> r in rows && start <= r.date <= end
  {
    if rows != [] {
      FilterMembership(rows[1..], start, end, r);
      assert rows == [rows[0]] + rows[1..];
    }
  }

  /** An inverted range (start after end) selects nothing; it is not an error. */
  lemma {:induction false} InvertedRangeIsEmpty(rows: seq<Row>, start: int, end: int)
    requires start > end
    ensures FilterRange(rows, start, end) == []
  {
    if rows != [] {
      InvertedRangeIsEmpty(rows[1..], start, end);
    }
  }

  /** `idx` embeds `a` into `b` in order: a[k] is b[idx[k]] and the positions
      strictly increase. */
  ghost predicate IsEmbedding(idx: seq<int>, a: seq<Row>, b: seq<Row>)
  {
    && |idx| == |a|
    && (forall k :: 0 <= k < |idx| ==> 0 <= idx[k] < |b| && a[k] == b[idx[k]])
    && (forall k, l :: 0 <= k < l < |idx| ==> idx[k] < idx[l])
  }

  /** An embedding into the tail of b, shifted by one, embeds into b and
      avoids position 0. */
  lemma ShiftEmbedding(idx: seq<int>, a: seq<Row>, b: seq<Row>) returns (shifted: seq<int>)
    requires b != [] && IsEmbedding(idx, a, b[1..])
    ensures IsEmbedding(shifted, a, b)
    ensures |shifted| == |idx|
    ensures forall k :: 0 <= k < |shifted| ==> shifted[k] == idx[k] + 1
  {
    shifted := seq(|idx|, k requires 0 <= k < |idx| => idx[k] + 1);
    forall k | 0 <= k < |shifted|
      ensures 0 <= shifted[k] < |b| && a[k] == b[shifted[k]]
    {
      assert a[k] == b[1..][idx[k]];
    }
  }

  /** An embedding that avoids position 0 extends to one of [b[0]] + a. */
  lemma ConsEmbedding(idx: seq<int>, a: seq<Row>, b: seq<Row>)
    requires b != [] && IsEmbedding(idx, a, b)
    requires forall k :: 0 <= k < |idx| ==> idx[k] >= 1
    ensures IsEmbedding([0] + idx, [b[0]] + a, b)
  {
    var idx', a' := [0] + idx, [b[0]] + a;
    forall k | 0 <= k < |idx'|
      ensures 0 <= idx'[k] < |b| && a'[k] == b[idx'[k]]
    {
      if k > 0 {
        assert idx'[k] == idx[k - 1] && a'[k] == a[k - 1];
      }
    }
  }

  /** `idx` lists in-range positions of `rows` only, and all of them. */
  ghost predicate CoversRange(idx: seq<int>, rows: seq<Row>, start: int, end: int)
  {
    && (forall k :: 0 <= k < |idx| ==> 0 <= idx[k] < |rows| && InRange(rows[idx[k]], start, end))
    && (forall p :: 0 <= p < |rows| && InRange(rows[p], start, end) ==> p in idx)
  }

  /** Covering the tail of the table, shifted by one, covers the table after
      position 0. */
  lemma ShiftCovers(tail: seq<int>, shifted: seq<int>, rows: seq<Row>, start: int, end: int)
    requires rows != [] && CoversRange(tail, rows[1..], start, end)
    requires |shifted| == |tail|
    requires forall k :: 0 <= k < |shifted| ==> shifted[k] == tail[k] + 1
    ensures forall k :: 0 <= k < |shifted| ==> 1 <= shifted[k] < |rows| && InRange(rows[shifted[k]], start, end)
    ensures forall p :: 1 <= p < |rows| && InRange(rows[p], start, end) ==> p in shifted
  {
    forall k | 0 <= k < |shifted|
      ensures 1 <= shifted[k] < |rows| && InRange(rows[shifted[k]], start, end)
    {
      assert rows[shifted[k]] == rows[1..][tail[k]];
    }
    forall p | 1 <= p < |rows| && InRange(rows[p], start, end)
      ensures p in shifted
    {
      assert rows[1..][p - 1] == rows[p];
      var k :| 0 <= k < |tail| && tail[k] == p - 1;
      assert shifted[k] == p;
    }
  }

  /** Positions covering the table after position 0 cover all of it once
      position 0 is added when it is in range. */
  lemma ConsCovers(shifted: seq<int>, rows: seq<Row>, start: int, end: int)
    requires rows != []
    requires forall k :: 0 <= k < |shifted| ==> 1 <= shifted[k] < |rows| && InRange(rows[shifted[k]], start, end)
    requires forall p :: 1 <= p < |rows| && InRange(rows[p], start, end) ==> p in shifted
    ensures InRange(rows[0], start, end) ==> CoversRange([0] + shifted, rows, start, end)
    ensures !InRange(rows[0], start, end) ==> CoversRange(shifted, rows, start, end)
  {
    if InRange(rows[0], start, end) {
      var idx := [0] + shifted;
      forall k | 0 <= k < |idx|
        ensures 0 <= idx[k] < |rows| && InRange(rows[idx[k]], start, end)
      {
        if k > 0 {
          assert idx[k] == shifted[k - 1];
        }
      }
      forall p | 0 <= p < |rows| && InRange(rows[p], start, end)
        ensures p in idx
      {
        if p > 0 {
          assert p in shifted;
        }
      }
    }
  }

  /** The view is an order-preserving subsequence of the table that keeps
      exactly the in-range positions: this returns the table position of every
      row of the view; each of them is in range, and every in-range position
      of the table, duplicates included, is among them. */
  lemma {:induction false} FilterIsSubsequence(rows: seq<Row>, start: int, end: int)
    returns (idx: seq<int>)
    ensures IsEmbedding(idx, FilterRange(rows, start, end), rows)
    ensures forall k :: 0 <= k < |idx| ==> InRange(rows[idx[k]], start, end)
    ensures forall p :: 0 <= p < |rows| && InRange(rows[p], start, end) ==> p in idx
  {
    if rows == [] {
      idx := [];
    } else {
      var tail := FilterIsSubsequence(rows[1..], start, end);
      var rest := FilterRange(rows[1..], start, end);
      var shifted := ShiftEmbedding(tail, rest, rows);
      ShiftCovers(tail, shifted, rows, start, end);
      ConsCovers(shifted, rows, start, end);
      if InRange(rows[0], start, end) {
        ConsEmbedding(shifted, rest, rows);
        idx := [0] + shifted;
      } else {
        idx := shifted;
      }
    }
  }

  /** A strictly increasing list of positions that holds exactly the members
      of S has as many entries as S. */
  lemma {:induction false} IncreasingCount(idx: seq<int>, S: set<int>)
    requires forall k, l :: 0 <= k < l < |idx| ==> idx[k] < idx[l]
    requires forall k :: 0 <= k < |idx| ==> idx[k] in S
    requires forall x :: x in S ==> x in idx
    ensures |idx| == |S|
  {
    if idx == [] {
      assert forall x :: x !in S;
      assert S == {};
    } else {
      var e, init := idx[|idx| - 1], idx[..|idx| - 1];
      forall x | x in S - {e}
        ensures x in init
      {
        var k :| 0 <= k < |idx| && idx[k] == x;
        assert k != |idx| - 1;
        assert init[k] == x;
      }
      forall k | 0 <= k < |init|
        ensures init[k] in S - {e}
      {
        assert init[k] == idx[k] && idx[k] < e;
      }
      IncreasingCount(init, S - {e});
    }
  }

  /** The view holds one row per in-range position of the table, so a row
      that occurs several times in range is kept as often. */
  lemma FilterKeepsEveryCopy(rows: seq<Row>, start: int, end: int)
    ensures |FilterRange(rows, start, end)| == |set p | 0 <= p < |rows| && InRange(rows[p], start, end)|
  {
    var idx := FilterIsSubsequence(rows, start, end);
    var positions := set p | 0 <= p < |rows| && InRange(rows[p], start, end);
    IncreasingCount(idx, positions);
  }

  /** Filtering a date-sorted table gives a date-sorted view. */
  lemma FilterKeepsSorted(rows: seq<Row>, start: int, end: int)
    requires SortedByDate(rows)
    ensures SortedByDate(FilterRange(rows, start, end))
  {
    var idx := FilterIsSubsequence(rows, start, end);
    var view := FilterRange(rows, start, end);
    forall i, j | 0 <= i < j < |view|
      ensures view[i].date <= view[j].date
    {
      assert view[i] == rows[idx[i]] && view[j] == rows[idx[j]];
    }
  }

  /** A range that covers every date of the table keeps the whole table. */
  lemma {:induction false} CoveringRangeKeepsAll(rows: seq<Row>, start: int, end: int)
    requires forall i :: 0 <= i < |rows| ==> start <= rows[i].date <= end
    ensures FilterRange(rows, start, end) == rows
  {
    if rows != [] {
      CoveringRangeKeepsAll(rows[1..], start, end);
    }
  }

  /** The smallest and largest date of the table (`date.min()`,
      `date.max()`); `None` for an empty table, where pandas gives no date. */
  function DateBounds(rows: seq<Row>): (b: Option<(int, int)>)
    ensures b.None? <==> rows == []
    ensures b.Some? ==> forall i :: 0 <= i < |rows| ==> b.value.0 <= rows[i].date <= b.value.1
    ensures b.Some? ==> exists i :: 0 <= i < |rows| && rows[i].date == b.value.0
    ensures b.Some? ==> exists i :: 0 <= i < |rows| && rows[i].date == b.value.1
  {
    if rows == [] then None
    else
      match DateBounds(rows[1..])
      case None => Some((rows[0].date, rows[0].date))
      case Some((lo, hi)) =>
        Some((if rows[0].date < lo then rows[0].date else lo,
              if rows[0].date > hi then rows[0].date else hi))
  }

  /** For a date-sorted table the bounds are the first and last dates. */
  lemma SortedBounds(rows: seq<Row>)
    requires rows != [] && SortedByDate(rows)
    ensures DateBounds(rows) == Some((rows[0].date, rows[|rows| - 1].date))
  {
    var b := DateBounds(rows).value;
    var last := |rows| - 1;
    var i :| 0 <= i < |rows| && rows[i].date == b.0;
    var j :| 0 <= j < |rows| && rows[j].date == b.1;
    assert b.0 <= rows[0].date && rows[last].date <= b.1;
    assert rows[0].date <= rows[i].date && rows[j].date <= rows[last].date;
  }

  /** The default selection, [min date, max date], shows the whole table. */
  lemma DefaultRangeKeepsAll(rows: seq<Row>)
    requires rows != []
    ensures FilterRange(rows, DateBounds(rows).value.0, DateBounds(rows).value.1) == rows
  {
    CoveringRangeKeepsAll(rows, DateBounds(rows).value.0, DateBounds(rows).value.1);
  }
}
