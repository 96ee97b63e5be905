/** Loading the table: the rows as read, sorted ascending by date in place,
    then re-labelled 0..n-1 in place (`reset_index(drop=True)`). */
module Loader {
  import opened Rows

  /** The frame as read from the file: rows in file order with the default
      index labels 0..n-1. */
  function AsRead(src: seq<Row>): (frame: seq<Entry>)
    ensures |frame| == |src|
    ensures RowsOf(frame) == src
    ensures forall i :: 0 <= i < |frame| ==> frame[i].index == i
  {
    seq(|src|, i requires 0 <= i < |src| => Entry(i, src[i]))
  }

  /** The first `n` entries are in ascending date order. */
  predicate SortedPrefix(s: seq<Entry>, n: int)
    requires 0 <= n <= |s|
  {
    forall p, q :: 0 <= p < q < n ==> s[p].row.date <= s[q].row.date
  }

  /** Exchanges the entries at positions j - 1 and j. */
  method SwapDown(a: array<Entry>, j: int)
    requires 0 < j < a.Length
    modifies a
    ensures a[..] == old(a[..])[j - 1 := old(a[j])][j := old(a[j - 1])]
    ensures multiset(a[..]) == multiset(old(a[..]))
  {
    a[j - 1], a[j] := a[j], a[j - 1];
  }

  /** Moves a[i] down into the sorted prefix a[..i]. */
  method InsertAt(a: array<Entry>, i: int)
    requires 0 <= i < a.Length
    requires SortedPrefix(a[..], i)
    modifies a
    ensures SortedPrefix(a[..], i + 1)
    ensures multiset(a[..]) == multiset(old(a[..]))
    ensures a[i + 1..] == old(a[i + 1..])
  {
    var j := i;
    while j > 0 && a[j - 1].row.date > a[j].row.date
      invariant 0 <= j <= i
      invariant forall p, q :: 0 <= p < q <= i && p != j && q != j ==> a[p].row.date <= a[q].row.date
      invariant forall q :: j < q <= i ==> a[j].row.date <= a[q].row.date
      invariant multiset(a[..]) == multiset(old(a[..]))
      invariant a[i + 1..] == old(a[i + 1..])
    {
      SwapDown(a, j);
      j := j - 1;
    }
  }

  /** Sorts the frame ascending by date, moving each row together with its
      label. */
  method SortByDate(a: array<Entry>)
    modifies a
    ensures SortedByDate(RowsOf(a[..]))
    ensures multiset(a[..]) == multiset(old(a[..]))
  {
    var i := 0;
    while i < a.Length
      invariant 0 <= i <= a.Length
      invariant SortedPrefix(a[..], i)
      invariant multiset(a[..]) == multiset(old(a[..]))
    {
      InsertAt(a, i);
      i := i + 1;
    }
  }

  /** Replaces every label by the row's position, keeping the rows. */
  method ResetIndex(a: array<Entry>)
    modifies a
    ensures forall i :: 0 <= i < a.Length ==> a[i] == Entry(i, old(a[i].row))
    ensures RowsOf(a[..]) == RowsOf(old(a[..]))
  {
    for i := 0 to a.Length
      invariant forall k :: 0 <= k < i ==> a[k] == Entry(k, old(a[k].row))
      invariant forall k :: i <= k < a.Length ==> a[k] == old(a[k])
    {
      a[i] := Entry(i, a[i].row);
    }
  }

  lemma Cancel<T>(A: multiset<T>, B: multiset<T>, x: T)
    requires A + multiset{x} == B + multiset{x}
    ensures A == B
  {
    assert A == (A + multiset{x}) - multiset{x};
  }

  /** Removing position k takes t[k] out of the multiset of t. */
  lemma RemoveOne<T>(t: seq<T>, k: int)
    requires 0 <= k < |t|
    ensures multiset(t) == multiset(t[..k] + t[k + 1..]) + multiset{t[k]}
  {
    assert t == t[..k] + [t[k]] + t[k + 1..];
  }

  /** Removing entry k of a frame removes t[k].row from its rows. */
  lemma RowsWithout(t: seq<Entry>, k: int)
    requires 0 <= k < |t|
    ensures RowsOf(t[..k] + t[k + 1..]) == RowsOf(t)[..k] + RowsOf(t)[k + 1..]
  {
  }

  /** Frames with the same entries up to order have the same rows up to order. */
  lemma {:induction false} MultisetRows(s: seq<Entry>, t: seq<Entry>)
    requires multiset(s) == multiset(t)
    ensures multiset(RowsOf(s)) == multiset(RowsOf(t))
    decreases |s|
  {
    if s == [] {
      assert |t| == |multiset(t)| == 0;
    } else {
      var x := s[0];
      assert x in multiset(t);
      var k :| 0 <= k < |t| && t[k] == x;
      var t' := t[..k] + t[k + 1..];
      RemoveOne(t, k);
      RemoveOne(s, 0);
      assert s[..0] + s[1..] == s[1..];
      Cancel(multiset(s[1..]), multiset(t'), x);
      MultisetRows(s[1..], t');
      RestoreRow(s, t, k);
    }
  }

  /** Putting the row back at position 0 of s and at position k of t keeps
      the multisets of rows equal. */
  lemma RestoreRow(s: seq<Entry>, t: seq<Entry>, k: int)
    requires s != [] && 0 <= k < |t| && t[k] == s[0]
    requires multiset(RowsOf(s[1..])) == multiset(RowsOf(t[..k] + t[k + 1..]))
    ensures multiset(RowsOf(s)) == multiset(RowsOf(t))
  {
    var rs, rt := RowsOf(s), RowsOf(t);
    RowsWithout(t, k);
    assert RowsOf(s[1..]) == rs[1..];
    assert rs == [rs[0]] + rs[1..];
    RemoveOne(rt, k);
    assert multiset(rs) == multiset(rs[1..]) + multiset{rs[0]};
  }

  /** Loading: the rows as read, sorted by date, with index 0..n-1. */
  method Load(src: seq<Row>) returns (table: seq<Entry>)
    ensures |table| == |src|
    ensures forall i :: 0 <= i < |table| ==> table[i].index == i
    ensures SortedByDate(RowsOf(table))
    ensures multiset(RowsOf(table)) == multiset(src)
  {
    var a := new Entry[|src|](i requires 0 <= i < |src| => Entry(i, src[i]));
    ghost var read := a[..];
    assert read == AsRead(src);
    SortByDate(a);
    ghost var sorted := a[..];
    MultisetRows(sorted, read);
    ResetIndex(a);
    table := a[..];
  }
}
