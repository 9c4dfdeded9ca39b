/**
 * How a summary-spectrum list recovers its slot-to-pixel assignment from the
 * per-packet pixel-id rows: too many distinct ids means corrupted telemetry
 * and the default assignment; an assignment that every row agrees with (up to
 * order) is accepted, and its pixel list is the per-slot median of the rows;
 * anything else is an error.
 */
module PixelAssignment {
  import opened Sequences
  import opened Pixels
  import opened Outcomes

  /** More distinct ids than this means the pixel ids are not trusted. */
  const MaxDistinctIds: nat := 24

  function Ids(row: seq<PixelId>): seq<int> {
    Map(row, (x: PixelId) => x as int)
  }

  /** The rows of a two-dimensional array: all of one length. */
  predicate Rectangular(rows: seq<seq<PixelId>>) {
    forall t :: 0 <= t < |rows| ==> |rows[t]| == |rows[0]|
  }

  /** All ids of all rows, row after row. */
  function Flatten(rows: seq<seq<PixelId>>): seq<int>
    decreases |rows|
  {
    if rows == [] then [] else Flatten(rows[..|rows| - 1]) + Ids(rows[|rows| - 1])
  }

  /**
   * `np.all(a == b)` for one-dimensional arrays: equal lengths compare element
   * by element, a length-one side is broadcast against the other, and any other
   * pair of lengths does not compare equal.
   */
  predicate BroadcastAllEqual(a: seq<int>, b: seq<int>) {
    if |a| == |b| then forall i :: 0 <= i < |a| ==> a[i] == b[i]
    else if |a| == 1 then forall i :: 0 <= i < |b| ==> b[i] == a[0]
    else if |b| == 1 then forall i :: 0 <= i < |a| ==> a[i] == b[0]
    else false
  }

  /** Column `j` of the rows. */
  function Column(rows: seq<seq<PixelId>>, j: nat): (c: seq<PixelId>)
    requires forall t :: 0 <= t < |rows| ==> j < |rows[t]|
    ensures |c| == |rows| && forall t :: 0 <= t < |rows| ==> c[t] == rows[t][j]
    decreases |rows|
  {
    if rows == [] then [] else Column(rows[..|rows| - 1], j) + [rows[|rows| - 1][j]]
  }

  lemma SortedIdsInRange(col: seq<PixelId>)
    ensures forall k :: 0 <= k < |SortSeq(Ids(col))| ==> 0 <= SortSeq(Ids(col))[k] < 0x1_0000
  {
    var s := SortSeq(Ids(col));
    SortSeqSpec(Ids(col));
    forall k | 0 <= k < |s| ensures 0 <= s[k] < 0x1_0000 {
      assert s[k] in multiset(s);
      assert s[k] in multiset(Ids(col));
      var t :| 0 <= t < |Ids(col)| && Ids(col)[t] == s[k];
    }
  }

  /**
   * `np.median` of a column cast back to `uint16`: the middle element, or the
   * mean of the two middle elements truncated toward zero.
   */
  function Median(col: seq<PixelId>): PixelId
    requires col != []
  {
    var s := SortSeq(Ids(col));
    SortedIdsInRange(col);
    ((s[(|s| - 1) / 2] + s[|s| / 2]) / 2) as PixelId
  }

  /** The per-slot medians of the first `n` columns. */
  function Medians(rows: seq<seq<PixelId>>, n: nat): (r: seq<PixelId>)
    requires rows != [] && Rectangular(rows) && n <= |rows[0]|
    ensures |r| == n
    decreases n
  {
    if n == 0 then [] else Medians(rows, n - 1) + [Median(Column(rows, n - 1))]
  }

  /**
   * The pixel list a summary-spectrum list adopts for its pixel-id rows, or
   * the error its construction raises.
   */
  function ResolvePixelList(rows: seq<seq<PixelId>>): Result<seq<PixelId>>
    requires Rectangular(rows)
  {
    var unique := Unique(Flatten(rows));
    if |unique| > MaxDistinctIds then Ok(DefaultSpecPixelIds)
    else if rows == [] then Err(IndexOutOfRange)
    else if BroadcastAllEqual(unique, SortSeq(Ids(rows[0]))) then Ok(Medians(rows, |rows[0]|))
    else Err(PixelIdsChanged)
  }

  // ---------------------------------------------------------------------------
  // Properties
  // ---------------------------------------------------------------------------

  /** The distinct ids anywhere in the rows. */
  function DistinctIds(rows: seq<seq<PixelId>>): set<int> {
    Elements(Flatten(rows))
  }

  /** More than 24 distinct ids anywhere selects the 24-entry default list, which never raises. */
  lemma TooManyIdsFallsBack(rows: seq<seq<PixelId>>)
    requires Rectangular(rows)
    requires |DistinctIds(rows)| > MaxDistinctIds
    ensures ResolvePixelList(rows) == Ok(DefaultSpecPixelIds)
    ensures |ResolvePixelList(rows).value| == SlotCount && NoDuplicates(ResolvePixelList(rows).value)
  {
    UniqueCount(Flatten(rows));
    DefaultSpecPixelIdsDistinct();
  }

  /** An accepted pixel list has one entry per slot of the rows, or is the 24-entry default. */
  lemma ResolvedLength(rows: seq<seq<PixelId>>)
    requires Rectangular(rows)
    requires ResolvePixelList(rows).Ok?
    ensures |ResolvePixelList(rows).value| == if |DistinctIds(rows)| > MaxDistinctIds then SlotCount else |rows[0]|
    ensures rows != []
  {
    UniqueCount(Flatten(rows));
  }

  /**
   * With at most 24 distinct ids, construction succeeds iff there is a first
   * row and either one id fills every slot, or the first row holds no id twice
   * and holds every id that occurs anywhere.
   */
  lemma AcceptedIff(rows: seq<seq<PixelId>>)
    requires Rectangular(rows)
    requires |DistinctIds(rows)| <= MaxDistinctIds
    ensures ResolvePixelList(rows).Ok? <==>
              rows != [] &&
              (|DistinctIds(rows)| == 1 ||
               (NoDuplicates(rows[0]) && Elements(Ids(rows[0])) == DistinctIds(rows)))
    ensures rows == [] ==> ResolvePixelList(rows) == Err(IndexOutOfRange)
    ensures rows != [] && !ResolvePixelList(rows).Ok? ==> ResolvePixelList(rows) == Err(PixelIdsChanged)
  {
    var flat := Flatten(rows);
    UniqueCount(flat);
    if rows != [] {
      FirstRowIdsOccur(rows);
      IdsNoDuplicates(rows[0]);
      BroadcastMatch(Unique(flat), Ids(rows[0]));
    }
  }

  /**
   * Comparing the distinct ids with the sorted first row, broadcasting included,
   * succeeds iff there is one distinct id, or the row has no repeats and holds
   * every distinct id.
   */
  lemma BroadcastMatch(unique: seq<int>, row: seq<int>)
    requires IsStrictlySorted(unique)
    requires Elements(row) <= Elements(unique)
    ensures BroadcastAllEqual(unique, SortSeq(row)) <==>
              |unique| == 1 || (NoDuplicates(row) && Elements(row) == Elements(unique))
  {
    SortElements(row);
    if BroadcastAllEqual(unique, SortSeq(row)) && |unique| != 1 {
      BroadcastMeansSameIds(unique, row);
    }
    if |unique| == 1 {
      OneIdBroadcasts(unique, row);
    }
    if NoDuplicates(row) && Elements(row) == Elements(unique) {
      SortStrictIffNoDuplicates(row);
      StrictlySortedUnique(unique, SortSeq(row));
    }
  }

  lemma BroadcastMeansSameIds(unique: seq<int>, row: seq<int>)
    requires IsStrictlySorted(unique)
    requires Elements(row) <= Elements(unique)
    requires Elements(SortSeq(row)) == Elements(row)
    requires BroadcastAllEqual(unique, SortSeq(row)) && |unique| != 1
    ensures NoDuplicates(row) && Elements(row) == Elements(unique)
  {
    var sorted := SortSeq(row);
    SortSeqSpec(row);
    assert |multiset(sorted)| == |multiset(row)|;
    assert |row| > 0 ==> row[0] in Elements(row);
    assert |unique| >= 2 ==> unique[0] < unique[1];
    assert |unique| == |sorted|;
    assert unique == sorted;
    SortStrictIffNoDuplicates(row);
  }

  lemma OneIdBroadcasts(unique: seq<int>, row: seq<int>)
    requires |unique| == 1
    requires Elements(row) <= Elements(unique)
    requires Elements(SortSeq(row)) == Elements(row)
    ensures BroadcastAllEqual(unique, SortSeq(row))
  {
    OneIdBroadcastsTo(unique, SortSeq(row));
  }

  lemma OneIdBroadcastsTo(unique: seq<int>, sorted: seq<int>)
    requires |unique| == 1
    requires Elements(sorted) <= Elements(unique)
    ensures BroadcastAllEqual(unique, sorted)
  {
    assert Elements(unique) == {unique[0]};
    forall i | 0 <= i < |sorted| ensures sorted[i] == unique[0] {
      assert sorted[i] in Elements(sorted);
    }
  }

  /** A first row with distinct ids that every row repeats is accepted, and becomes the pixel list. */
  lemma ConsistentRowsAccepted(rows: seq<seq<PixelId>>)
    requires rows != [] && forall t :: 0 <= t < |rows| ==> rows[t] == rows[0]
    requires NoDuplicates(rows[0]) && |rows[0]| <= MaxDistinctIds
    ensures ResolvePixelList(rows) == Ok(rows[0])
  {
    SameRowsIds(rows);
    IdsNoDuplicates(rows[0]);
    NoDuplicatesCount(Ids(rows[0]));
    AcceptedIff(rows);
    UniqueCount(Flatten(rows));
    SameRowsMedians(rows, |rows[0]|);
    assert rows[0][..|rows[0]|] == rows[0];
  }

  /** Whenever identical rows are accepted, the pixel list is that row. */
  lemma IdenticalRowsGiveFirstRow(rows: seq<seq<PixelId>>)
    requires rows != [] && forall t :: 0 <= t < |rows| ==> rows[t] == rows[0]
    requires |DistinctIds(rows)| <= MaxDistinctIds
    requires ResolvePixelList(rows).Ok?
    ensures ResolvePixelList(rows).value == rows[0]
  {
    UniqueCount(Flatten(rows));
    SameRowsMedians(rows, |rows[0]|);
    assert rows[0][..|rows[0]|] == rows[0];
  }

  // ---------------------------------------------------------------------------
  // Helper facts
  // ---------------------------------------------------------------------------

  lemma {:induction false} StrictlySortedCount(s: seq<int>)
    requires IsStrictlySorted(s)
    ensures |Elements(s)| == |s|
    decreases |s|
  {
    if s != [] {
      StrictlySortedCount(s[1..]);
      assert s == [s[0]] + s[1..];
      assert Elements(s) == {s[0]} + Elements(s[1..]);
      assert s[0] !in Elements(s[1..]);
    }
  }

  lemma {:induction false} NoDuplicatesCount(s: seq<int>)
    requires NoDuplicates(s)
    ensures |Elements(s)| == |s|
    decreases |s|
  {
    if s != [] {
      NoDuplicatesCount(s[1..]);
      assert s == [s[0]] + s[1..];
      assert Elements(s) == {s[0]} + Elements(s[1..]);
      assert s[0] !in Elements(s[1..]);
    }
  }

  /** `np.unique` has one entry per distinct value. */
  lemma UniqueCount(s: seq<int>)
    ensures |Unique(s)| == |Elements(s)|
  {
    StrictlySortedCount(Unique(s));
  }

  lemma SortElements(s: seq<int>)
    ensures Elements(SortSeq(s)) == Elements(s)
  {
    var r := SortSeq(s);
    SortSeqSpec(s);
    forall x ensures x in Elements(r) <==> x in Elements(s) {
      assert x in r <==> x in multiset(r);
      assert x in s <==> x in multiset(s);
    }
  }

  lemma IdsNoDuplicates(row: seq<PixelId>)
    ensures NoDuplicates(Ids(row)) <==> NoDuplicates(row)
  {
  }

  lemma {:induction false} FlattenHolds(rows: seq<seq<PixelId>>, t: int)
    requires 0 <= t < |rows|
    ensures Elements(Ids(rows[t])) <= Elements(Flatten(rows))
    decreases |rows|
  {
    var init := rows[..|rows| - 1];
    if t < |rows| - 1 {
      assert init[t] == rows[t];
      FlattenHolds(init, t);
    }
  }

  lemma FirstRowIdsOccur(rows: seq<seq<PixelId>>)
    requires rows != []
    ensures Elements(Ids(rows[0])) <= DistinctIds(rows)
  {
    FlattenHolds(rows, 0);
  }

  /** When every row repeats the first, the distinct ids are those of the first row. */
  lemma {:induction false} SameRowsIds(rows: seq<seq<PixelId>>)
    requires rows != [] && forall t :: 0 <= t < |rows| ==> rows[t] == rows[0]
    ensures DistinctIds(rows) == Elements(Ids(rows[0]))
    decreases |rows|
  {
    var init := rows[..|rows| - 1];
    ElementsConcat(Flatten(init), Ids(rows[|rows| - 1]));
    if |rows| > 1 {
      assert init[0] == rows[0];
      SameRowsIds(init);
    } else {
      assert Flatten(init) == [];
    }
  }

  /**
   * The median lies between two entries of its column, and is an entry when the
   * column has odd length: the uint16 cast never leaves the column's range.
   */
  lemma MedianWithinColumn(col: seq<PixelId>)
    requires col != []
    ensures exists i :: 0 <= i < |col| && col[i] <= Median(col)
    ensures exists j :: 0 <= j < |col| && Median(col) <= col[j]
    ensures |col| % 2 == 1 ==> Median(col) in col
  {
    var s := SortSeq(Ids(col));
    SortSeqSpec(Ids(col));
    var lo, hi := (|s| - 1) / 2, |s| / 2;
    assert s[lo] <= s[hi];
    assert s[lo] in multiset(Ids(col));
    assert s[hi] in multiset(Ids(col));
    var i :| 0 <= i < |col| && Ids(col)[i] == s[lo];
    var j :| 0 <= j < |col| && Ids(col)[j] == s[hi];
    assert col[i] <= Median(col) <= col[j];
    if |col| % 2 == 1 {
      assert lo == hi;
      assert col[i] == Median(col);
    }
  }

  /** The median of a column holding one value is that value. */
  lemma MedianOfConstant(col: seq<PixelId>, v: PixelId)
    requires col != [] && forall t :: 0 <= t < |col| ==> col[t] == v
    ensures Median(col) == v
  {
    var s := SortSeq(Ids(col));
    SortSeqSpec(Ids(col));
    forall k | 0 <= k < |s| ensures s[k] == v as int {
      assert s[k] in multiset(s);
      assert s[k] in multiset(Ids(col));
    }
  }

  lemma {:induction false} SameRowsMedians(rows: seq<seq<PixelId>>, n: nat)
    requires rows != [] && forall t :: 0 <= t < |rows| ==> rows[t] == rows[0]
    requires n <= |rows[0]|
    ensures Medians(rows, n) == rows[0][..n]
    decreases n
  {
    if n > 0 {
      SameRowsMedians(rows, n - 1);
      var col := Column(rows, n - 1);
      assert forall t :: 0 <= t < |col| ==> col[t] == rows[0][n - 1];
      MedianOfConstant(col, rows[0][n - 1]);
      assert Median(col) == rows[0][n - 1];
      assert rows[0][..n] == rows[0][..n - 1] + [rows[0][n - 1]];
    }
  }
}
