/** Group-by-mean: `groupby(column)['count'].mean()` over the weather, season
    and day-type columns. Each distinct key present gets one entry holding
    the mean ride count of its group. */
module GroupMeans {
  import opened Rows

  /** The columns the dashboard groups by. */
  datatype Column = Weather | Season | DayType

  /** The group key of a row; a row without a value in the column (`None`)
      belongs to no group, as pandas drops missing keys. */
  function KeyOf(r: Row, c: Column): Option<string>
  {
    match c
    case Weather => Some(r.weather)
    case Season => Some(r.season)
    case DayType => r.dayType
  }

  /** Row i belongs to group k. */
  predicate InGroupAt(rows: seq<Row>, c: Column, k: string, i: int)
  {
    0 <= i < |rows| && KeyOf(rows[i], c) == Some(k)
  }

  /** What a group adds up: its days (rows) or its rides (`count`). */
  datatype Measure = Days | Rides

  function Weight(r: Row, m: Measure): nat
  {
    match m
    case Days => 1
    case Rides => r.count
  }

  /** The number of days, or the rides, of group k. */
  function GroupTotal(rows: seq<Row>, c: Column, k: string, m: Measure): nat
  {
    if rows == [] then 0
    else
      var last := rows[|rows| - 1];
      GroupTotal(rows[..|rows| - 1], c, k, m) + (if KeyOf(last, c) == Some(k) then Weight(last, m) else 0)
  }

  /** Some row carries key k. */
  ghost predicate Present(rows: seq<Row>, c: Column, k: string)
  {
    exists i :: InGroupAt(rows, c, k, i)
  }

  /** A group has days exactly when some row carries its key. */
  lemma {:induction false} GroupNonEmptyIffPresent(rows: seq<Row>, c: Column, k: string)
    ensures GroupTotal(rows, c, k, Days) > 0 <==> Present(rows, c, k)
  {
    if rows != [] {
      var init := rows[..|rows| - 1];
      GroupNonEmptyIffPresent(init, c, k);
      if KeyOf(rows[|rows| - 1], c) == Some(k) {
        assert InGroupAt(rows, c, k, |rows| - 1);
      }
      if exists i :: InGroupAt(init, c, k, i) {
        var i :| InGroupAt(init, c, k, i);
        assert InGroupAt(rows, c, k, i);
      }
      if exists i :: InGroupAt(rows, c, k, i) {
        var i :| InGroupAt(rows, c, k, i);
        if i < |init| {
          assert InGroupAt(init, c, k, i);
        }
      }
    }
  }

  /** The distinct keys present, in order of first appearance. */
  function GroupKeys(rows: seq<Row>, c: Column): (ks: seq<string>)
    ensures forall i, j :: 0 <= i < j < |ks| ==> ks[i] != ks[j]
    ensures forall k :: k in ks <==> GroupTotal(rows, c, k, Days) > 0
  {
    if rows == [] then []
    else
      var ks := GroupKeys(rows[..|rows| - 1], c);
      match KeyOf(rows[|rows| - 1], c)
      case None => ks
      case Some(k) => if k in ks then ks else ks + [k]
  }

  /** The mean ride count of a non-empty group. */
  function Mean(rows: seq<Row>, c: Column, k: string): (r: real)
    requires GroupTotal(rows, c, k, Days) > 0
    ensures r * GroupTotal(rows, c, k, Days) as real == GroupTotal(rows, c, k, Rides) as real
  {
    GroupTotal(rows, c, k, Rides) as real / GroupTotal(rows, c, k, Days) as real
  }

  /** One output row: a key and the mean `count` of its group. */
  datatype GroupMean = GroupMean(key: string, mean: real)

  /** `groupby(c)['count'].mean().reset_index()`. */
  function Aggregate(rows: seq<Row>, c: Column): (agg: seq<GroupMean>)
  {
    var ks := GroupKeys(rows, c);
    seq(|ks|, i requires 0 <= i < |ks| => GroupMean(ks[i], Mean(rows, c, ks[i])))
  }

  /** The key column of an aggregate. */
  function KeysOf(agg: seq<GroupMean>): (ks: seq<string>)
    ensures |ks| == |agg|
    ensures forall i :: 0 <= i < |agg| ==> ks[i] == agg[i].key
  {
    seq(|agg|, i requires 0 <= i < |agg| => agg[i].key)
  }

  /** The output has one entry per distinct key present in the input, each
      key once, and each entry's mean is the group's rides divided by its
      days. */
  lemma AggregateMeaning(rows: seq<Row>, c: Column)
    ensures forall i, j :: 0 <= i < j < |Aggregate(rows, c)| ==> Aggregate(rows, c)[i].key != Aggregate(rows, c)[j].key
    ensures forall k :: k in KeysOf(Aggregate(rows, c)) <==> Present(rows, c, k)
    ensures forall i :: 0 <= i < |Aggregate(rows, c)| ==>
              var g := Aggregate(rows, c)[i];
              GroupTotal(rows, c, g.key, Days) > 0 &&
              g.mean == GroupTotal(rows, c, g.key, Rides) as real / GroupTotal(rows, c, g.key, Days) as real
  {
    assert KeysOf(Aggregate(rows, c)) == GroupKeys(rows, c);
    forall k | true
      ensures k in GroupKeys(rows, c) <==> Present(rows, c, k)
    {
      GroupNonEmptyIffPresent(rows, c, k);
    }
  }

  /** Empty input gives empty output. */
  lemma AggregateOfNothing(c: Column)
    ensures Aggregate([], c) == []
  {
  }

  /** The smallest count of a non-empty group. */
  function GroupMin(rows: seq<Row>, c: Column, k: string): (lo: nat)
    requires GroupTotal(rows, c, k, Days) > 0
    ensures exists i :: InGroupAt(rows, c, k, i) && rows[i].count == lo
    ensures forall i :: InGroupAt(rows, c, k, i) ==> lo <= rows[i].count
  {
    var init, last := rows[..|rows| - 1], rows[|rows| - 1];
    assert forall i :: InGroupAt(init, c, k, i) ==> InGroupAt(rows, c, k, i);
    assert forall i :: InGroupAt(rows, c, k, i) && i < |init| ==> InGroupAt(init, c, k, i);
    assert KeyOf(last, c) == Some(k) ==> InGroupAt(rows, c, k, |rows| - 1);
    if KeyOf(last, c) != Some(k) then GroupMin(init, c, k)
    else if GroupTotal(init, c, k, Days) == 0 then GroupNonEmptyIffPresent(init, c, k); last.count
    else
      var m := GroupMin(init, c, k);
      if last.count < m then last.count else m
  }

  /** The largest count of a non-empty group. */
  function GroupMax(rows: seq<Row>, c: Column, k: string): (hi: nat)
    requires GroupTotal(rows, c, k, Days) > 0
    ensures exists i :: InGroupAt(rows, c, k, i) && rows[i].count == hi
    ensures forall i :: InGroupAt(rows, c, k, i) ==> rows[i].count <= hi
  {
    var init, last := rows[..|rows| - 1], rows[|rows| - 1];
    assert forall i :: InGroupAt(init, c, k, i) ==> InGroupAt(rows, c, k, i);
    assert forall i :: InGroupAt(rows, c, k, i) && i < |init| ==> InGroupAt(init, c, k, i);
    assert KeyOf(last, c) == Some(k) ==> InGroupAt(rows, c, k, |rows| - 1);
    if KeyOf(last, c) != Some(k) then GroupMax(init, c, k)
    else if GroupTotal(init, c, k, Days) == 0 then GroupNonEmptyIffPresent(init, c, k); last.count
    else
      var m := GroupMax(init, c, k);
      if last.count > m then last.count else m
  }

  /** If every count of group k is at least lo, its rides are at least lo
      per day. */
  lemma {:induction false} RidesAtLeast(rows: seq<Row>, c: Column, k: string, lo: nat)
    requires forall i :: InGroupAt(rows, c, k, i) ==> lo <= rows[i].count
    ensures lo * GroupTotal(rows, c, k, Days) <= GroupTotal(rows, c, k, Rides)
  {
    if rows != [] {
      var init := rows[..|rows| - 1];
      forall i | InGroupAt(init, c, k, i)
        ensures lo <= init[i].count
      {
        assert InGroupAt(rows, c, k, i);
      }
      RidesAtLeast(init, c, k, lo);
      if KeyOf(rows[|rows| - 1], c) == Some(k) {
        assert InGroupAt(rows, c, k, |rows| - 1);
        var d0 := GroupTotal(init, c, k, Days);
        assert lo * (d0 + 1) == lo * d0 + lo;
      }
    }
  }

  /** If every count of group k is at most hi, its rides are at most hi per
      day. */
  lemma {:induction false} RidesAtMost(rows: seq<Row>, c: Column, k: string, hi: nat)
    requires forall i :: InGroupAt(rows, c, k, i) ==> rows[i].count <= hi
    ensures GroupTotal(rows, c, k, Rides) <= hi * GroupTotal(rows, c, k, Days)
  {
    if rows != [] {
      var init := rows[..|rows| - 1];
      forall i | InGroupAt(init, c, k, i)
        ensures init[i].count <= hi
      {
        assert InGroupAt(rows, c, k, i);
      }
      RidesAtMost(init, c, k, hi);
      if KeyOf(rows[|rows| - 1], c) == Some(k) {
        assert InGroupAt(rows, c, k, |rows| - 1);
        var d0 := GroupTotal(init, c, k, Days);
        assert hi * (d0 + 1) == hi * d0 + hi;
      }
    }
  }

  lemma QuotientBetween(lo: nat, hi: nat, s: nat, d: nat)
    requires d > 0 && lo * d <= s <= hi * d
    ensures lo as real <= s as real / d as real <= hi as real
  {
    assert (lo * d) as real == lo as real * d as real;
    assert (hi * d) as real == hi as real * d as real;
  }

  /** A group's mean lies between its smallest and its largest count. */
  lemma MeanWithinGroup(rows: seq<Row>, c: Column, k: string)
    requires GroupTotal(rows, c, k, Days) > 0
    ensures GroupMin(rows, c, k) as real <= Mean(rows, c, k) <= GroupMax(rows, c, k) as real
  {
    var lo, hi := GroupMin(rows, c, k), GroupMax(rows, c, k);
    RidesAtLeast(rows, c, k, lo);
    RidesAtMost(rows, c, k, hi);
    QuotientBetween(lo, hi, GroupTotal(rows, c, k, Rides), GroupTotal(rows, c, k, Days));
  }

  /** Bounds on a group's counts bound its mean. */
  lemma MeanBounds(rows: seq<Row>, c: Column, k: string, lo: nat, hi: nat)
    requires GroupTotal(rows, c, k, Days) > 0
    requires forall i :: InGroupAt(rows, c, k, i) ==> lo <= rows[i].count <= hi
    ensures lo as real <= Mean(rows, c, k) <= hi as real
  {
    MeanWithinGroup(rows, c, k);
  }

  /** Two tables that agree, row by row, on the key column and on `count`. */
  predicate SameKeysAndCounts(s: seq<Row>, t: seq<Row>, c: Column)
  {
    |s| == |t| && forall i :: 0 <= i < |s| ==> KeyOf(s[i], c) == KeyOf(t[i], c) && s[i].count == t[i].count
  }

  lemma {:induction false} GroupTotalOnlyReadsKeyAndCount(s: seq<Row>, t: seq<Row>, c: Column, k: string, m: Measure)
    requires SameKeysAndCounts(s, t, c)
    ensures GroupTotal(s, c, k, m) == GroupTotal(t, c, k, m)
  {
    if s != [] {
      GroupTotalOnlyReadsKeyAndCount(s[..|s| - 1], t[..|t| - 1], c, k, m);
    }
  }

  lemma {:induction false} GroupKeysOnlyReadKey(s: seq<Row>, t: seq<Row>, c: Column)
    requires SameKeysAndCounts(s, t, c)
    ensures GroupKeys(s, c) == GroupKeys(t, c)
  {
    if s != [] {
      GroupKeysOnlyReadKey(s[..|s| - 1], t[..|t| - 1], c);
    }
  }

  /** The aggregate reads only the key column and `count`: columns added to
      the view (such as the weekend flag) do not change it. */
  lemma AggregateOnlyReadsKeyAndCount(s: seq<Row>, t: seq<Row>, c: Column)
    requires SameKeysAndCounts(s, t, c)
    ensures Aggregate(s, c) == Aggregate(t, c)
  {
    GroupKeysOnlyReadKey(s, t, c);
    var ks := GroupKeys(s, c);
    forall i | 0 <= i < |ks|
      ensures GroupTotal(s, c, ks[i], Days) == GroupTotal(t, c, ks[i], Days)
      ensures GroupTotal(s, c, ks[i], Rides) == GroupTotal(t, c, ks[i], Rides)
    {
      GroupTotalOnlyReadsKeyAndCount(s, t, c, ks[i], Days);
      GroupTotalOnlyReadsKeyAndCount(s, t, c, ks[i], Rides);
    }
  }

  /** The days, or the rides, of all rows that have a key. */
  function KeyedTotal(rows: seq<Row>, c: Column, m: Measure): nat
  {
    if rows == [] then 0
    else
      var last := rows[|rows| - 1];
      KeyedTotal(rows[..|rows| - 1], c, m) + (if KeyOf(last, c).Some? then Weight(last, m) else 0)
  }

  /** The sum of GroupTotal over a list of keys. */
  function SumOverKeys(rows: seq<Row>, c: Column, ks: seq<string>, m: Measure): nat
  {
    if ks == [] then 0
    else SumOverKeys(rows, c, ks[..|ks| - 1], m) + GroupTotal(rows, c, ks[|ks| - 1], m)
  }

  /** Appending a row adds its weight to exactly the one listed key it
      carries, if any. */
  lemma {:induction false} SumOverKeysAppend(rows: seq<Row>, r: Row, c: Column, ks: seq<string>, m: Measure)
    requires forall i, j :: 0 <= i < j < |ks| ==> ks[i] != ks[j]
    ensures SumOverKeys(rows + [r], c, ks, m) ==
              SumOverKeys(rows, c, ks, m) + (if KeyOf(r, c).Some? && KeyOf(r, c).value in ks then Weight(r, m) else 0)
  {
    var rows' := rows + [r];
    assert rows'[..|rows'| - 1] == rows;
    if ks != [] {
      var init := ks[..|ks| - 1];
      SumOverKeysAppend(rows, r, c, init, m);
      assert ks == init + [ks[|ks| - 1]];
      assert KeyOf(r, c).Some? && KeyOf(r, c).value == ks[|ks| - 1] ==> KeyOf(r, c).value !in init;
    }
  }

  /** The groups partition the keyed rows: summed over the output keys, the
      groups' days and rides are those of all keyed rows. */
  lemma {:induction false} GroupsPartitionRows(rows: seq<Row>, c: Column, m: Measure)
    ensures SumOverKeys(rows, c, GroupKeys(rows, c), m) == KeyedTotal(rows, c, m)
  {
    if rows != [] {
      var init, r := rows[..|rows| - 1], rows[|rows| - 1];
      var ks := GroupKeys(init, c);
      GroupsPartitionRows(init, c, m);
      assert rows == init + [r];
      SumOverKeysAppend(init, r, c, ks, m);
      assert KeyedTotal(rows, c, m) == KeyedTotal(init, c, m) + (if KeyOf(r, c).Some? then Weight(r, m) else 0);
      if KeyOf(r, c).Some? && KeyOf(r, c).value !in ks {
        NewKeyStep(init, r, c, ks, m);
      }
    }
  }

  /** A row with a key not yet seen opens a group holding just that row. */
  lemma NewKeyStep(init: seq<Row>, r: Row, c: Column, ks: seq<string>, m: Measure)
    requires ks == GroupKeys(init, c)
    requires KeyOf(r, c).Some? && KeyOf(r, c).value !in ks
    ensures GroupKeys(init + [r], c) == ks + [KeyOf(r, c).value]
    ensures SumOverKeys(init + [r], c, ks + [KeyOf(r, c).value], m) ==
              SumOverKeys(init + [r], c, ks, m) + Weight(r, m)
  {
    var k, rows := KeyOf(r, c).value, init + [r];
    assert rows[..|rows| - 1] == init;
    var ks' := ks + [k];
    assert ks'[..|ks'| - 1] == ks;
    assert GroupTotal(init, c, k, m) == 0 by {
      GroupNonEmptyIffPresent(init, c, k);
      RidesAtMost(init, c, k, 0);
    }
  }

  /** Worked example: two clear days with 10 and 20 rides and a rainy day
      with 5 give Clear 15 and Rain 5. */
  lemma WeatherExample()
    ensures Aggregate([Row(0, "Clear", "Spring", 10, 4, 6, None, None),
                       Row(1, "Clear", "Spring", 20, 5, 15, None, None),
                       Row(2, "Rain", "Spring", 5, 1, 4, None, None)], Weather)
            == [GroupMean("Clear", 15.0), GroupMean("Rain", 5.0)]
  {
    var a := Row(0, "Clear", "Spring", 10, 4, 6, None, None);
    var b := Row(1, "Clear", "Spring", 20, 5, 15, None, None);
    var r := Row(2, "Rain", "Spring", 5, 1, 4, None, None);
    var rows := [a, b, r];
    assert rows[..2] == [a, b] && [a, b][..1] == [a] && [a][..0] == [];
    assert "Clear" != "Rain";
    assert GroupKeys([a], Weather) == ["Clear"];
    assert GroupKeys([a, b], Weather) == ["Clear"];
    assert GroupKeys(rows, Weather) == ["Clear", "Rain"];
    assert GroupTotal([a], Weather, "Clear", Days) == 1 && GroupTotal([a], Weather, "Clear", Rides) == 10;
    assert GroupTotal([a, b], Weather, "Clear", Days) == 2 && GroupTotal([a, b], Weather, "Clear", Rides) == 30;
    assert GroupTotal(rows, Weather, "Clear", Days) == 2 && GroupTotal(rows, Weather, "Clear", Rides) == 30;
    assert GroupTotal([a], Weather, "Rain", Days) == 0 && GroupTotal([a], Weather, "Rain", Rides) == 0;
    assert GroupTotal([a, b], Weather, "Rain", Days) == 0 && GroupTotal([a, b], Weather, "Rain", Rides) == 0;
    assert GroupTotal(rows, Weather, "Rain", Days) == 1 && GroupTotal(rows, Weather, "Rain", Rides) == 5;
  }
}
